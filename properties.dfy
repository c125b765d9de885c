/**
 * What the formatter promises, stated over the model of `src/humantime.rs`:
 * the rough table's thresholds and rounding, tense and sign, the shape and
 * conservation of the precise breakdown, the rendering tables and the joiner.
 */
module HumantimeProperties {
  import opened Wrappers
  import opened Numerals
  import opened Spans
  import opened Humantime

  // ---------------------------------------------------------------------------
  // Rough accuracy

  /** Seconds in one unit of a period, with months of 30 days and years of 365. */
  function UnitSeconds(p: TimePeriod): (u: nat)
    ensures u >= 1
  {
    match p
    case Minutes(_) => S_MINUTE
    case Hours(_) => S_HOUR
    case Days(_) => S_DAY
    case Weeks(_) => S_WEEK
    case Months(_) => S_MONTH
    case Years(_) => S_YEAR
    case _ => 1
  }

  /** Up to ten seconds is "now"; from 11 to 45 seconds the count is exact; past
      that the bucket is a whole unit from minutes up, whose count is either one
      (a singular row) or the floor count of that unit, raised to at least two. */
  lemma RoughBucketApproximates(n: nat)
    ensures RoughBucket(n) == Now <==> n <= 10
    ensures 10 < n <= 45 ==> RoughBucket(n) == Seconds(n)
    ensures n > 45 ==> Rank(RoughBucket(n)) >= Rank(Minutes(1)) && Rank(RoughBucket(n)) <= Rank(Years(1))
    ensures n > 10 ==> Count(RoughBucket(n)) >= 1
    ensures n > 45 ==> n / UnitSeconds(RoughBucket(n)) <= Count(RoughBucket(n)) <= n / UnitSeconds(RoughBucket(n)) + 1
    ensures n > 45 ==> Count(RoughBucket(n)) == 1 || Count(RoughBucket(n)) == Max(n / UnitSeconds(RoughBucket(n)), 2)
  {
    PeriodSeconds();
  }

  /** The `max(_, 2)` guards: a count of one comes exactly from the singular
      rows of the table, so every plural row carries a count of at least two. */
  lemma RoughSingularRows(n: nat)
    ensures Count(RoughBucket(n)) == 1 <==>
      || 45 < n <= 90
      || 45 * S_MINUTE < n <= 90 * S_MINUTE
      || 22 * S_HOUR < n <= 36 * S_HOUR
      || 6 * S_DAY + 12 * S_HOUR < n <= 10 * S_DAY + 12 * S_HOUR
      || 29 * S_DAY < n <= 45 * S_DAY
      || 345 * S_DAY < n <= 547 * S_DAY
  {
  }

  /** A longer span never gets a smaller rough bucket. */
  predicate NotAfter(p: TimePeriod, q: TimePeriod) {
    Rank(p) < Rank(q) || (Rank(p) == Rank(q) && Count(p) <= Count(q))
  }

  lemma RoughBucketMonotone(m: nat, n: nat)
    requires m <= n
    ensures NotAfter(RoughBucket(m), RoughBucket(n))
  {
    PeriodSeconds();
    var p, q := RoughBucket(m), RoughBucket(n);
    if Rank(p) == Rank(q) && p != Now {
      var u := UnitSeconds(p);
      assert m / u <= n / u;
    }
  }

  /** The boundary rows of the table, as the tests pin them down. */
  lemma RoughThresholds()
    ensures RoughBucket(10) == Now && RoughBucket(11) == Seconds(11)
    ensures RoughBucket(45) == Seconds(45) && RoughBucket(46) == Minutes(1)
    ensures RoughBucket(90) == Minutes(1) && RoughBucket(91) == Minutes(2)
    ensures RoughBucket(45 * S_MINUTE) == Minutes(45) && RoughBucket(46 * S_MINUTE) == Hours(1)
    ensures RoughBucket(10 * S_DAY) == Weeks(1) && RoughBucket(11 * S_DAY) == Weeks(2)
    ensures RoughBucket(45 * S_DAY) == Months(1) && RoughBucket(46 * S_DAY) == Months(2)
    ensures RoughBucket(700 * S_DAY) == Years(2)
  {
  }

  /** The rough period looks only at the magnitude of the span. */
  lemma RoughPeriodSignBlind(ht: HumanTime)
    ensures RoughPeriod(HumanTime(Neg(ht.span))) == RoughPeriod(ht)
  {
    TotalNanosNeg(ht.span);
  }

  // ---------------------------------------------------------------------------
  // Tense

  /** With rough accuracy the tense is the present exactly when the period is "now". */
  lemma RoughPresentIsNow(ht: HumanTime)
    ensures TenseOf(ht, Rough) == Present <==> RoughPeriod(ht) == [Now]
  {
    var t := Abs(TotalNanos(ht.span));
    assert t < 11 * NANOS_PER_SECOND <==> TotalSeconds(ht.span) <= 10;
    RoughBucketApproximates(TotalSeconds(ht.span));
  }

  /** Outside the rough "now" window the tense is the sign of the span's length. */
  lemma TenseIsSign(ht: HumanTime, accuracy: Accuracy)
    requires accuracy == Precise || Abs(TotalNanos(ht.span)) >= 11 * NANOS_PER_SECOND
    ensures TenseOf(ht, accuracy) == Future <==> TotalNanos(ht.span) > 0
    ensures TenseOf(ht, accuracy) == Past <==> TotalNanos(ht.span) < 0
    ensures TenseOf(ht, accuracy) == Present <==> TotalNanos(ht.span) == 0
  {
  }

  /** For a span whose components share one sign, the precise tense reads that sign. */
  lemma PreciseTenseOfSameSign(ht: HumanTime)
    requires SameSign(ht.span)
    ensures TenseOf(ht, Precise) == Present <==> IsZeroTime(ht)
    ensures TenseOf(ht, Precise) == Future <==> NonNegative(ht.span) && !IsZeroTime(ht)
    ensures TenseOf(ht, Precise) == Past <==> NonPositive(ht.span) && !IsZeroTime(ht)
  {
    CompareIsSign(ht.span);
  }

  function Mirror(t: Tense): Tense {
    match t
    case Past => Future
    case Future => Past
    case Present => Present
  }

  /** Negating the span swaps the past and the future and keeps the present. */
  lemma TenseNeg(ht: HumanTime, accuracy: Accuracy)
    ensures TenseOf(HumanTime(Neg(ht.span)), accuracy) == Mirror(TenseOf(ht, accuracy))
  {
    TotalNanosNeg(ht.span);
  }

  // ---------------------------------------------------------------------------
  // Precise accuracy

  /** The counts the table assigns to a span do not depend on its sign. */
  lemma UnitCountNeg(s: Span, i: nat)
    requires i < UNITS
    ensures UnitCount(Neg(s), i) == UnitCount(s, i)
  {
    assert Abs(Neg(s).days) == Abs(s.days);
  }

  lemma {:induction false} KeptUpToNeg(s: Span, k: nat)
    requires k <= UNITS
    ensures KeptUpTo(Neg(s), k) == KeptUpTo(s, k)
  {
    if k > 0 {
      KeptUpToNeg(s, k - 1);
      UnitCountNeg(s, k - 1);
    }
  }

  /** The precise breakdown looks only at the magnitude of every component. */
  lemma BreakdownSignBlind(s: Span)
    ensures Breakdown(Neg(s)) == Breakdown(s)
  {
    KeptUpToNeg(s, UNITS);
  }

  /** The periods kept from the first `k` units are real units with non-zero
      counts, in strictly decreasing order of unit, each larger than any unit
      still to come. */
  lemma {:induction false} KeptUpToOrdered(s: Span, k: nat)
    requires k <= UNITS
    ensures forall p :: p in KeptUpTo(s, k) ==> Count(p) > 0 && UNITS - k < Rank(p) <= UNITS
    ensures forall i, j :: 0 <= i < j < |KeptUpTo(s, k)| ==>
      Rank(KeptUpTo(s, k)[i]) > Rank(KeptUpTo(s, k)[j])
  {
    if k > 0 {
      KeptUpToOrdered(s, k - 1);
      var prev := KeptUpTo(s, k - 1);
      var c := Candidate(s, k - 1);
      assert KeptUpTo(s, k) == prev + Keep(c);
      forall i, j | 0 <= i < j < |KeptUpTo(s, k)|
        ensures Rank(KeptUpTo(s, k)[i]) > Rank(KeptUpTo(s, k)[j])
      {
        assert KeptUpTo(s, k)[i] in prev;
        if j >= |prev| {
          assert KeptUpTo(s, k)[j] == c;
        } else {
          assert KeptUpTo(s, k)[j] == prev[j];
        }
      }
    }
  }

  /** Every unit count of the table is zero exactly for the empty span. */
  lemma {:induction false} KeptUpToEmpty(s: Span, k: nat)
    requires k <= UNITS
    ensures KeptUpTo(s, k) == [] <==> forall i :: 0 <= i < k ==> UnitCount(s, i) == 0
  {
    if k > 0 {
      KeptUpToEmpty(s, k - 1);
      var prev := KeptUpTo(s, k - 1);
      assert KeptUpTo(s, k) == prev + Keep(Candidate(s, k - 1));
      if forall i :: 0 <= i < k ==> UnitCount(s, i) == 0 {
        assert UnitCount(s, k - 1) == 0;
      } else if prev == [] {
        assert UnitCount(s, k - 1) > 0;
      }
    }
  }

  /** Only the empty span gets a zero count for every unit of the table. */
  lemma NoCountsIsEmpty(s: Span)
    requires forall i :: 0 <= i < UNITS ==> UnitCount(s, i) == 0
    ensures IsZero(s)
  {
    var d := Abs(s.days);
    assert UnitCount(s, 0) == 0 && UnitCount(s, 1) == 0 && UnitCount(s, 3) == 0;
    assert d == d / DAYS_IN_YEAR * DAYS_IN_YEAR + d % DAYS_IN_YEAR;
    assert d % DAYS_IN_YEAR == d % DAYS_IN_YEAR / DAYS_IN_MONTH * DAYS_IN_MONTH + d % DAYS_IN_YEAR % DAYS_IN_MONTH;
    assert UnitCount(s, 2) == 0 && UnitCount(s, 4) == 0 && UnitCount(s, 5) == 0;
    assert UnitCount(s, 6) == 0 && UnitCount(s, 7) == 0;
    assert UnitCount(s, 8) == 0 && UnitCount(s, 9) == 0;
  }

  /** The precise breakdown is never empty; it is the lone "0 seconds" exactly
      for the empty span, and otherwise a list of non-zero counts of distinct
      units from the largest to the smallest. */
  lemma BreakdownWellFormed(s: Span)
    ensures |Breakdown(s)| >= 1
    ensures Breakdown(s) == [Seconds(0)] <==> IsZero(s)
    ensures !IsZero(s) ==> forall p :: p in Breakdown(s) ==> Count(p) > 0 && Rank(p) >= Rank(Nanos(1))
    ensures forall i, j :: 0 <= i < j < |Breakdown(s)| ==> Rank(Breakdown(s)[i]) > Rank(Breakdown(s)[j])
  {
    KeptUpToOrdered(s, UNITS);
    KeptUpToEmpty(s, UNITS);
    if forall i :: 0 <= i < UNITS ==> UnitCount(s, i) == 0 {
      NoCountsIsEmpty(s);
    } else {
      var i :| 0 <= i < UNITS && UnitCount(s, i) != 0;
      assert !IsZero(s);
      var kept := KeptUpTo(s, UNITS);
      assert kept != [] && Breakdown(s) == kept;
      assert kept[0] in kept && Count(kept[0]) > 0;
    }
  }

  const NANOS_PER_MONTH: nat := S_MONTH * NANOS_PER_SECOND
  const NANOS_PER_YEAR: nat := S_YEAR * NANOS_PER_SECOND

  /** The length in nanoseconds a list of periods stands for, with 24-hour days,
      30-day months and 365-day years. */
  function UnitNanos(p: TimePeriod): nat {
    match p
    case Nanos(_) => 1
    case Micros(_) => NANOS_PER_MICRO
    case Millis(_) => NANOS_PER_MILLI
    case Seconds(_) => NANOS_PER_SECOND
    case Minutes(_) => NANOS_PER_MINUTE
    case Hours(_) => NANOS_PER_HOUR
    case Days(_) => NANOS_PER_DAY
    case Weeks(_) => NANOS_PER_WEEK
    case Months(_) => NANOS_PER_MONTH
    case Years(_) => NANOS_PER_YEAR
    case _ => 0
  }

  function PeriodNanos(p: TimePeriod): (r: nat)
    ensures Count(p) == 0 ==> r == 0
  {
    Count(p) * UnitNanos(p)
  }

  function SumNanos(ps: seq<TimePeriod>): nat {
    if ps == [] then 0 else SumNanos(ps[..|ps| - 1]) + PeriodNanos(ps[|ps| - 1])
  }

  /** The length the first `k` unit counts of the table stand for. */
  function TableNanos(s: Span, k: nat): nat
    requires k <= UNITS
  {
    if k == 0 then 0 else TableNanos(s, k - 1) + PeriodNanos(Candidate(s, k - 1))
  }

  lemma {:induction false} KeptUpToNanos(s: Span, k: nat)
    requires k <= UNITS
    ensures SumNanos(KeptUpTo(s, k)) == TableNanos(s, k)
  {
    if k > 0 {
      KeptUpToNanos(s, k - 1);
      var prev := KeptUpTo(s, k - 1);
      var c := Candidate(s, k - 1);
      if Count(c) > 0 {
        var kept := prev + [c];
        assert KeptUpTo(s, k) == kept;
        assert kept[..|kept| - 1] == prev && kept[|kept| - 1] == c;
      } else {
        assert KeptUpTo(s, k) == prev;
      }
    }
  }

  /** Years, months and days carved from the days component add back up to it. */
  lemma DaysCarving(d: nat)
    ensures d / DAYS_IN_YEAR * DAYS_IN_YEAR + d % DAYS_IN_YEAR / DAYS_IN_MONTH * DAYS_IN_MONTH
            + d % DAYS_IN_YEAR % DAYS_IN_MONTH == d
    ensures d % DAYS_IN_YEAR / DAYS_IN_MONTH <= 12 && d % DAYS_IN_YEAR % DAYS_IN_MONTH < DAYS_IN_MONTH
  {
    var r := d % DAYS_IN_YEAR;
    assert d == d / DAYS_IN_YEAR * DAYS_IN_YEAR + r;
    assert r == r / DAYS_IN_MONTH * DAYS_IN_MONTH + r % DAYS_IN_MONTH;
  }

  /** The table's counts stand for the sum of the magnitudes of the components. */
  lemma TableNanosIsMagnitude(s: Span)
    ensures TableNanos(s, UNITS) == MagnitudeNanos(s)
  {
    var d := Abs(s.days);
    DaysCarving(d);
    var y, m, r := d / DAYS_IN_YEAR, d % DAYS_IN_YEAR / DAYS_IN_MONTH, d % DAYS_IN_YEAR % DAYS_IN_MONTH;
    assert y * NANOS_PER_YEAR + m * NANOS_PER_MONTH + r * NANOS_PER_DAY == d * NANOS_PER_DAY;
    assert Candidate(s, 0) == Years(y) && Candidate(s, 1) == Months(m) && Candidate(s, 3) == Days(r);
    assert TableNanos(s, 1) == y * NANOS_PER_YEAR;
    assert TableNanos(s, 2) == TableNanos(s, 1) + m * NANOS_PER_MONTH;
    assert TableNanos(s, 3) == TableNanos(s, 2) + Abs(s.weeks) * NANOS_PER_WEEK;
    assert TableNanos(s, 4) == TableNanos(s, 3) + r * NANOS_PER_DAY;
    assert TableNanos(s, 5) == TableNanos(s, 4) + Abs(s.hours) * NANOS_PER_HOUR;
    assert TableNanos(s, 6) == TableNanos(s, 5) + Abs(s.minutes) * NANOS_PER_MINUTE;
    assert TableNanos(s, 7) == TableNanos(s, 6) + Abs(s.seconds) * NANOS_PER_SECOND;
    assert TableNanos(s, 8) == TableNanos(s, 7) + Abs(s.millis) * NANOS_PER_MILLI;
    assert TableNanos(s, 9) == TableNanos(s, 8) + Abs(s.micros) * NANOS_PER_MICRO;
    assert TableNanos(s, 10) == TableNanos(s, 9) + Abs(s.nanos);
  }

  /** Nothing is lost: the breakdown stands for the sum of the magnitudes of the
      components, which for a span of one sign is the magnitude of its length. */
  lemma BreakdownConservesLength(s: Span)
    ensures SumNanos(Breakdown(s)) == MagnitudeNanos(s)
    ensures SameSign(s) ==> SumNanos(Breakdown(s)) == Abs(TotalNanos(s))
  {
    KeptUpToNanos(s, UNITS);
    TableNanosIsMagnitude(s);
    if KeptUpTo(s, UNITS) == [] {
      assert SumNanos([Seconds(0)]) == 0;
    }
    if SameSign(s) {
      SameSignMagnitude(s);
    }
  }

  /** The days left after years and months are carved out are fewer than a
      month, and the carved counts account for all the days (`split_years`
      then `split_months` on a span with only days, as in `45.days()`). */
  lemma SplitYearsMonths(ht: HumanTime)
    ensures var (years, afterYears) := SplitYears(ht);
            var (months, afterMonths) := SplitMonths(afterYears);
            && Extracted(years) * DAYS_IN_YEAR + Extracted(months) * DAYS_IN_MONTH
               + Abs(afterMonths.span.days) == Abs(ht.span.days)
            && Abs(afterMonths.span.days) < DAYS_IN_MONTH
            && Extracted(months) <= 12
            && (ht.span.days >= 0 ==> afterMonths.span.days >= 0)
            && (ht.span.days <= 0 ==> afterMonths.span.days <= 0)
            && (SameSign(ht.span) ==> SameSign(afterMonths.span))
  {
    DaysCarving(Abs(ht.span.days));
  }

  /** What is left of the span after the first `k` splits of the cascade. */
  function RemainderUpTo(ht: HumanTime, k: nat): HumanTime
    requires k <= UNITS
  {
    if k == 0 then ht else SplitUnit(RemainderUpTo(ht, k - 1), k - 1).1
  }

  lemma {:induction false} RemainderUpToShape(ht: HumanTime, k: nat)
    requires k <= UNITS
    ensures RemainderAfter(RemainderUpTo(ht, k).span, ht.span, k)
  {
    if k > 0 {
      RemainderUpToShape(ht, k - 1);
      SplitUnitStep(ht, RemainderUpTo(ht, k - 1), k - 1);
    }
  }

  /** After the nanosecond split nothing of the span is left. */
  lemma SplitsExhaustSpan(ht: HumanTime)
    ensures IsZeroTime(RemainderUpTo(ht, UNITS))
  {
    RemainderUpToShape(ht, UNITS);
  }

  // ---------------------------------------------------------------------------
  // Rendering

  /** The unit word of a period, singular. */
  function UnitName(p: TimePeriod): string {
    match p
    case Nanos(_) => "ns"
    case Micros(_) => "µs"
    case Millis(_) => "ms"
    case Seconds(_) => "second"
    case Minutes(_) => "minute"
    case Hours(_) => "hour"
    case Days(_) => "day"
    case Weeks(_) => "week"
    case Months(_) => "month"
    case Years(_) => "year"
    case _ => ""
  }

  /** Seconds and larger units are words and take a plural; the sub-second
      abbreviations never do. */
  predicate IsWordUnit(p: TimePeriod) {
    Rank(Seconds(0)) <= Rank(p) <= Rank(Years(0))
  }

  function Plural(p: TimePeriod, n: nat): string {
    if IsWordUnit(p) && n != 1 then "s" else ""
  }

  /** Regrouping a count followed by a space, a unit word and a plural ending. */
  lemma Spelled(a: string, name: string, ending: string, text: string)
    requires " " + name + ending == text
    ensures a + " " + name + ending == a + text
  {
    assert a + " " + name + ending == a + (" " + name + ending);
  }

  /** Precise text: the decimal count, a space and the unit word, plural unless
      the count is one. */
  lemma PreciseTextShape(p: TimePeriod)
    requires !p.Now? && !p.Eternity?
    ensures ToTextPrecise(p) == NatToString(Count(p)) + " " + UnitName(p) + Plural(p, Count(p))
  {
    if Rank(p) < Rank(Seconds(0)) {
      SubSecondTextShape(p);
    } else if Rank(p) <= Rank(Hours(0)) {
      ClockTextShape(p);
    } else {
      CalendarTextShape(p);
    }
  }

  lemma SubSecondTextShape(p: TimePeriod)
    requires p.Nanos? || p.Micros? || p.Millis?
    ensures ToTextPrecise(p) == NatToString(Count(p)) + " " + UnitName(p) + Plural(p, Count(p))
  {
    var d := NatToString(Count(p));
    match p {
      case Nanos(_) => Spelled(d, "ns", "", " ns");
      case Micros(_) => Spelled(d, "µs", "", " µs");
      case Millis(_) => Spelled(d, "ms", "", " ms");
    }
  }

  lemma ClockTextShape(p: TimePeriod)
    requires p.Seconds? || p.Minutes? || p.Hours?
    ensures ToTextPrecise(p) == NatToString(Count(p)) + " " + UnitName(p) + Plural(p, Count(p))
  {
    var n := Count(p);
    var d := NatToString(n);
    assert NatToString(1) == "1";
    match p {
      case Seconds(_) =>
        if n == 1 { Spelled(d, "second", "", " second"); } else { Spelled(d, "second", "s", " seconds"); }
      case Minutes(_) =>
        if n == 1 { Spelled(d, "minute", "", " minute"); } else { Spelled(d, "minute", "s", " minutes"); }
      case Hours(_) =>
        if n == 1 { Spelled(d, "hour", "", " hour"); } else { Spelled(d, "hour", "s", " hours"); }
    }
  }

  lemma CalendarTextShape(p: TimePeriod)
    requires p.Days? || p.Weeks? || p.Months? || p.Years?
    ensures ToTextPrecise(p) == NatToString(Count(p)) + " " + UnitName(p) + Plural(p, Count(p))
  {
    var n := Count(p);
    var d := NatToString(n);
    assert NatToString(1) == "1";
    match p {
      case Days(_) =>
        if n == 1 { Spelled(d, "day", "", " day"); } else { Spelled(d, "day", "s", " days"); }
      case Weeks(_) =>
        if n == 1 { Spelled(d, "week", "", " week"); } else { Spelled(d, "week", "s", " weeks"); }
      case Months(_) =>
        if n == 1 { Spelled(d, "month", "", " month"); } else { Spelled(d, "month", "s", " months"); }
      case Years(_) =>
        if n == 1 { Spelled(d, "year", "", " year"); } else { Spelled(d, "year", "s", " years"); }
    }
  }

  /** Rough text: "a"/"an" and the unit word for a single minute and up ("an"
      only for the hour); otherwise the same as the precise text, except that
      seconds are always written in the plural. */
  lemma RoughTextShape(p: TimePeriod)
    requires !p.Now? && !p.Eternity?
    ensures Count(p) == 1 && Rank(p) >= Rank(Minutes(1)) ==>
      ToTextRough(p) == (if p.Hours? then "an " else "a ") + UnitName(p)
    ensures p.Seconds? ==> ToTextRough(p) == NatToString(Count(p)) + " seconds"
    ensures Count(p) != 1 ==> ToTextRough(p) == ToTextPrecise(p)
    ensures Rank(p) < Rank(Seconds(1)) ==> ToTextRough(p) == ToTextPrecise(p)
  {
  }

  /** The two markers read the same in both tables. */
  lemma MarkerTexts()
    ensures ToTextRough(Now) == "now" && ToTextPrecise(Now) == "now"
    ensures ToTextRough(Eternity) == "eternity" && ToTextPrecise(Eternity) == "eternity"
  {
  }

  /** The rough table never produces a single second, so its plural-only
      seconds row never has to render a count of one. */
  lemma RoughNeverOneSecond(ht: HumanTime)
    ensures RoughPeriod(ht)[0].Seconds? ==> RoughPeriod(ht)[0].n > 10
  {
    RoughBucketApproximates(TotalSeconds(ht.span));
  }

  /** In a digit string followed by a space, the first space is right after the digits. */
  lemma FirstSpace(a: string, x: string)
    requires IsDigits(a) && |x| >= 1 && x[0] == ' '
    ensures (a + x)[|a|] == ' '
    ensures forall i :: 0 <= i < |a| ==> (a + x)[i] != ' '
  {
  }

  /** A digit string followed by text that starts with a space splits back
      into the two at the first space. */
  lemma DigitsThenSpace(a: string, x: string, b: string, y: string)
    requires IsDigits(a) && IsDigits(b) && |x| >= 1 && |y| >= 1 && x[0] == ' ' && y[0] == ' '
    requires a + x == b + y
    ensures a == b && x == y
  {
    FirstSpace(a, x);
    FirstSpace(b, y);
    if |a| < |b| {
      assert false;
    } else if |b| < |a| {
      assert false;
    }
    assert a == (a + x)[..|a|] && b == (b + y)[..|b|];
    assert x == (a + x)[|a|..] && y == (b + y)[|b|..];
  }

  /** The unit of a rendered unit word, read from its first two letters. */
  function RankOfWord(t: string): nat
    requires |t| >= 2
  {
    if t[0] == 'n' then 1
    else if t[0] == 'µ' then 2
    else if t[0] == 'm' then (if t[1] == 's' then 3 else if t[1] == 'i' then 5 else 9)
    else if t[0] == 's' then 4
    else if t[0] == 'h' then 6
    else if t[0] == 'd' then 7
    else if t[0] == 'w' then 8
    else 10
  }

  lemma UnitWordRank(p: TimePeriod, suffix: string)
    requires !p.Now? && !p.Eternity?
    ensures |UnitName(p) + suffix| >= 2 && RankOfWord(UnitName(p) + suffix) == Rank(p)
  {
    var t := UnitName(p) + suffix;
    assert t[0] == UnitName(p)[0] && t[1] == UnitName(p)[1];
  }

  /** A precise text is the digits of the count, then a space, then the word. */
  lemma PreciseTextParts(p: TimePeriod)
    requires !p.Now? && !p.Eternity?
    ensures ToTextPrecise(p) == NatToString(Count(p)) + (" " + (UnitName(p) + Plural(p, Count(p))))
  {
    PreciseTextShape(p);
    var a, u, e := NatToString(Count(p)), UnitName(p), Plural(p, Count(p));
    assert a + " " + u + e == a + (" " + (u + e));
  }

  /** A unit-chunk is determined by its unit and its count. */
  lemma RankAndCount(p: TimePeriod, q: TimePeriod)
    requires !p.Now? && !p.Eternity? && !q.Now? && !q.Eternity?
    requires Rank(p) == Rank(q) && Count(p) == Count(q)
    ensures p == q
  {
  }

  /** Reading a precise text back: different unit-chunks render differently. */
  lemma PreciseTextInjective(p: TimePeriod, q: TimePeriod)
    requires !p.Now? && !p.Eternity? && !q.Now? && !q.Eternity?
    ensures ToTextPrecise(p) == ToTextPrecise(q) <==> p == q
  {
    if ToTextPrecise(p) == ToTextPrecise(q) {
      PreciseTextParts(p);
      PreciseTextParts(q);
      var u, v := UnitName(p) + Plural(p, Count(p)), UnitName(q) + Plural(q, Count(q));
      DigitsThenSpace(NatToString(Count(p)), " " + u, NatToString(Count(q)), " " + v);
      NatToStringInjective(Count(p), Count(q));
      assert u == (" " + u)[1..];
      assert v == (" " + v)[1..];
      UnitWordRank(p, Plural(p, Count(p)));
      UnitWordRank(q, Plural(q, Count(q)));
      RankAndCount(p, q);
    }
  }

  // ---------------------------------------------------------------------------
  // Joining

  lemma JoinAndSmall(a: string, b: string, c: string)
    ensures JoinAnd([a]) == a
    ensures JoinAnd([a, b]) == a + " and " + b
    ensures JoinAnd([a, b, c]) == a + ", " + b + " and " + c
  {
    assert CommaJoin([a, b], 1) == a;
    assert CommaJoin([a, b, c], 2) == a + ", " + b;
  }

  /** Joining from the front: the first fragment is followed by ", " and then
      by the join of the others. */
  lemma {:induction false} CommaJoinCons(a: string, rest: seq<string>, k: nat)
    requires 1 <= k <= |rest|
    ensures CommaJoin([a] + rest, k + 1) == a + ", " + CommaJoin(rest, k)
  {
    var all := [a] + rest;
    assert all[0] == a && all[k] == rest[k - 1];
    if k > 1 {
      CommaJoinCons(a, rest, k - 1);
      var x := CommaJoin(rest, k - 1);
      assert a + ", " + x + ", " + rest[k - 1] == a + ", " + (x + ", " + rest[k - 1]);
    }
  }

  /** A text of several fragments is the first one, then ", " and the text of
      the others while at least two remain, or " and " before the last. */
  lemma JoinAndCons(a: string, rest: seq<string>)
    requires |rest| >= 1
    ensures |rest| == 1 ==> JoinAnd([a] + rest) == a + " and " + rest[0]
    ensures |rest| >= 2 ==> JoinAnd([a] + rest) == a + ", " + JoinAnd(rest)
  {
    var all := [a] + rest;
    assert all[0] == a && all[|all| - 1] == rest[|rest| - 1];
    if |rest| >= 2 {
      CommaJoinCons(a, rest, |rest| - 1);
      var x, z := CommaJoin(rest, |rest| - 1), rest[|rest| - 1];
      assert a + ", " + x + " and " + z == a + ", " + (x + " and " + z);
    }
  }

  // ---------------------------------------------------------------------------
  // Whole texts, as in the documentation and tests
  //
  // The literal lemmas below (`...Fragments`, `...Joined`, `OneSecondFragment`)
  // state one rendering or one concatenation of string literals each. They are
  // kept apart so that each literal equality is proved in a small context of
  // its own, where the solver settles it cheaply; the scenario lemmas only
  // call them.

  /** Rough text is always a single fragment: the bucket's rough rendering,
      wrapped by the tense. */
  lemma RoughTextIsOneFragment(ht: HumanTime, tense: Tense)
    ensures TextEn(ht, Rough, tense) == Wrap(ToTextRough(RoughBucket(TotalSeconds(ht.span))), tense)
  {
  }

  /** A row of the rough table, from the span's whole seconds to its text. */
  lemma RoughRow(ht: HumanTime, n: nat, p: TimePeriod, text: string, tense: Tense)
    requires TotalSeconds(ht.span) == n && RoughBucket(n) == p && ToTextRough(p) == text
    ensures TextEn(ht, Rough, tense) == Wrap(text, tense)
  {
    RoughTextIsOneFragment(ht, tense);
  }

  /** Precise text of a breakdown into one, two or three periods. */
  lemma PreciseOne(ht: HumanTime, p: TimePeriod, tense: Tense)
    requires Breakdown(ht.span) == [p]
    ensures TextEn(ht, Precise, tense) == Wrap(ToTextPrecise(p), tense)
  {
    assert Texts([p], Precise) == [ToTextPrecise(p)];
  }

  lemma PreciseTwo(ht: HumanTime, p: TimePeriod, q: TimePeriod, tense: Tense)
    requires Breakdown(ht.span) == [p, q]
    ensures TextEn(ht, Precise, tense) == Wrap(ToTextPrecise(p) + " and " + ToTextPrecise(q), tense)
  {
    assert Texts([p, q], Precise) == [ToTextPrecise(p), ToTextPrecise(q)];
    JoinAndSmall(ToTextPrecise(p), ToTextPrecise(q), "");
  }

  lemma PreciseThree(ht: HumanTime, p: TimePeriod, q: TimePeriod, r: TimePeriod, tense: Tense)
    requires Breakdown(ht.span) == [p, q, r]
    ensures TextEn(ht, Precise, tense)
            == Wrap(ToTextPrecise(p) + ", " + ToTextPrecise(q) + " and " + ToTextPrecise(r), tense)
  {
    assert Texts([p, q, r], Precise) == [ToTextPrecise(p), ToTextPrecise(q), ToTextPrecise(r)];
    JoinAndSmall(ToTextPrecise(p), ToTextPrecise(q), ToTextPrecise(r));
  }

  /** `HumanTime::from(45.days())`, rough and precise, in the present. */
  lemma FortyFiveDaysRough()
    ensures TextEn(HumanTime(FromDays(45)), Rough, Present) == "a month"
  {
    RoughRow(HumanTime(FromDays(45)), 3_888_000, Months(1), "a month", Present);
  }

  lemma FortyFiveDaysBreakdown()
    ensures Breakdown(FromDays(45)) == [Months(1), Days(15)]
  {
    var s := FromDays(45);
    assert KeptUpTo(s, 1) == [];
    assert KeptUpTo(s, 2) == [Months(1)];
    assert KeptUpTo(s, 3) == [Months(1)];
    assert KeptUpTo(s, 4) == [Months(1), Days(15)];
    assert KeptUpTo(s, 7) == [Months(1), Days(15)];
    assert KeptUpTo(s, 10) == [Months(1), Days(15)];
  }

  lemma FortyFiveDaysPrecise(ht: HumanTime)
    requires ht.span == FromDays(45)
    ensures TextEn(ht, Precise, Present) == "1 month and 15 days"
  {
    FortyFiveDaysBreakdown();
    PreciseTwo(ht, Months(1), Days(15), Present);
    FortyFiveDaysFragments();
    FortyFiveDaysJoined();
  }

  lemma FortyFiveDaysFragments()
    ensures ToTextPrecise(Months(1)) == "1 month" && ToTextPrecise(Days(15)) == "15 days"
  {
    assert NatToString(15) == "15";
  }

  lemma FortyFiveDaysJoined()
    ensures "1 month" + " and " + "15 days" == "1 month and 15 days"
  {
  }

  /** The empty span is "now" roughly and "0 seconds" precisely, in the present. */
  lemma EmptySpanRough()
    ensures TextEn(HumanTime(Zero), Rough, TenseOf(HumanTime(Zero), Rough)) == "now"
  {
    RoughRow(HumanTime(Zero), 0, Now, "now", Present);
  }

  lemma EmptySpanPrecise(ht: HumanTime)
    requires ht.span == Zero
    ensures TextEn(ht, Precise, TenseOf(ht, Precise)) == "0 seconds"
  {
    assert KeptUpTo(Zero, UNITS) == [];
    PreciseOne(ht, Seconds(0), Present);
    ZeroSecondsFragment();
  }

  lemma ZeroSecondsFragment()
    ensures ToTextPrecise(Seconds(0)) == "0 seconds"
  {
    assert NatToString(0) == "0";
  }

  /** Fifteen seconds ahead and behind, with the tense taken from the span. */
  lemma FifteenSecondsAhead()
    ensures TextEn(HumanTime(FromSeconds(15)), Rough, TenseOf(HumanTime(FromSeconds(15)), Rough))
            == "in 15 seconds"
  {
    var ht := HumanTime(FromSeconds(15));
    assert TotalNanos(ht.span) == 15_000_000_000;
    assert NatToString(15) == "15";
    RoughRow(ht, 15, Seconds(15), "15 seconds", Future);
  }

  lemma FifteenSecondsBehind()
    ensures TextEn(HumanTime(FromSeconds(-15)), Rough, TenseOf(HumanTime(FromSeconds(-15)), Rough))
            == "15 seconds ago"
  {
    var ht := HumanTime(FromSeconds(-15));
    assert TotalNanos(ht.span) == -15_000_000_000;
    assert NatToString(15) == "15";
    RoughRow(ht, 15, Seconds(15), "15 seconds", Past);
  }

  lemma NinetyFiveSeconds()
    ensures TextEn(HumanTime(FromSeconds(95)), Rough, Present) == "2 minutes"
  {
    assert NatToString(2) == "2";
    RoughRow(HumanTime(FromSeconds(95)), 95, Minutes(2), "2 minutes", Present);
  }

  lemma FortyFiveMinutes()
    ensures TextEn(HumanTime(FromMinutes(45)), Rough, Present) == "45 minutes"
  {
    assert NatToString(45) == "45";
    RoughRow(HumanTime(FromMinutes(45)), 2_700, Minutes(45), "45 minutes", Present);
  }

  lemma FortySixMinutes()
    ensures TextEn(HumanTime(FromMinutes(46)), Rough, Present) == "an hour"
  {
    RoughRow(HumanTime(FromMinutes(46)), 2_760, Hours(1), "an hour", Present);
  }

  lemma TenDays()
    ensures TextEn(HumanTime(FromDays(10)), Rough, Present) == "a week"
  {
    RoughRow(HumanTime(FromDays(10)), 864_000, Weeks(1), "a week", Present);
  }

  lemma ElevenDays()
    ensures TextEn(HumanTime(FromDays(11)), Rough, Present) == "2 weeks"
  {
    assert NatToString(2) == "2";
    RoughRow(HumanTime(FromDays(11)), 950_400, Weeks(2), "2 weeks", Present);
  }

  lemma HundredWeeksAhead()
    ensures TextEn(HumanTime(FromWeeks(100)), Rough, Future) == "in 2 years"
  {
    assert NatToString(2) == "2";
    RoughRow(HumanTime(FromWeeks(100)), 60_480_000, Years(2), "2 years", Future);
  }

  lemma ThirtyDaysBehind()
    ensures TextEn(HumanTime(FromDays(-30)), Rough, Past) == "a month ago"
  {
    RoughRow(HumanTime(FromDays(-30)), 2_592_000, Months(1), "a month", Past);
  }

  /** Spans of several units render every unit, largest first. */
  lemma SixDaysThirteenHoursBreakdown()
    ensures Breakdown(Zero.(days := 6, hours := 13)) == [Days(6), Hours(13)]
  {
    var s := Zero.(days := 6, hours := 13);
    assert KeptUpTo(s, 3) == [];
    assert KeptUpTo(s, 4) == [Days(6)];
    assert KeptUpTo(s, 5) == [Days(6), Hours(13)];
    assert KeptUpTo(s, 8) == [Days(6), Hours(13)];
    assert KeptUpTo(s, 10) == [Days(6), Hours(13)];
  }

  lemma SixDaysThirteenHours(ht: HumanTime)
    requires ht.span == Zero.(days := 6, hours := 13)
    ensures TextEn(ht, Precise, Present) == "6 days and 13 hours"
  {
    SixDaysThirteenHoursBreakdown();
    PreciseTwo(ht, Days(6), Hours(13), Present);
    SixDaysThirteenHoursFragments();
    SixDaysThirteenHoursJoined();
  }

  lemma SixDaysThirteenHoursFragments()
    ensures ToTextPrecise(Days(6)) == "6 days" && ToTextPrecise(Hours(13)) == "13 hours"
  {
    assert NatToString(6) == "6";
    assert NatToString(13) == "13";
  }

  lemma SixDaysThirteenHoursJoined()
    ensures "6 days" + " and " + "13 hours" == "6 days and 13 hours"
  {
  }

  lemma HourMinutesSecondsBreakdown()
    ensures Breakdown(Zero.(hours := 1, minutes := 2, seconds := 3)) == [Hours(1), Minutes(2), Seconds(3)]
  {
    var s := Zero.(hours := 1, minutes := 2, seconds := 3);
    assert KeptUpTo(s, 4) == [];
    assert KeptUpTo(s, 5) == [Hours(1)];
    assert KeptUpTo(s, 6) == [Hours(1), Minutes(2)];
    assert KeptUpTo(s, 7) == [Hours(1), Minutes(2), Seconds(3)];
    assert KeptUpTo(s, 10) == [Hours(1), Minutes(2), Seconds(3)];
  }

  lemma HourMinutesSeconds(ht: HumanTime)
    requires ht.span == Zero.(hours := 1, minutes := 2, seconds := 3)
    ensures TextEn(ht, Precise, Future) == "in 1 hour, 2 minutes and 3 seconds"
  {
    HourMinutesSecondsBreakdown();
    PreciseThree(ht, Hours(1), Minutes(2), Seconds(3), Future);
    HourMinutesSecondsFragments();
    HourMinutesSecondsJoined();
  }

  lemma HourMinutesSecondsFragments()
    ensures ToTextPrecise(Hours(1)) == "1 hour" && ToTextPrecise(Minutes(2)) == "2 minutes"
    ensures ToTextPrecise(Seconds(3)) == "3 seconds"
  {
    TwoMinutesFragment();
    ThreeSecondsFragment();
  }

  lemma TwoMinutesFragment()
    ensures ToTextPrecise(Minutes(2)) == "2 minutes"
  {
    assert NatToString(2) == "2";
  }

  lemma ThreeSecondsFragment()
    ensures ToTextPrecise(Seconds(3)) == "3 seconds"
  {
    assert NatToString(3) == "3";
  }

  lemma HourMinutesSecondsJoined()
    ensures "in " + ("1 hour" + ", " + "2 minutes" + " and " + "3 seconds")
            == "in 1 hour, 2 minutes and 3 seconds"
  {
  }

  /** One second in the past, precisely: the singular and the past tense. */
  lemma OneSecondAgo(ht: HumanTime)
    requires ht.span == FromSeconds(-1)
    ensures TextEn(ht, Precise, TenseOf(ht, Precise)) == "1 second ago"
  {
    assert KeptUpTo(FromSeconds(-1), 6) == [];
    assert KeptUpTo(FromSeconds(-1), 7) == [Seconds(1)];
    assert KeptUpTo(FromSeconds(-1), 10) == [Seconds(1)];
    assert TotalNanos(ht.span) < 0;
    PreciseOne(ht, Seconds(1), Past);
    OneSecondFragment();
  }

  lemma OneSecondFragment()
    ensures ToTextPrecise(Seconds(1)) + " ago" == "1 second ago"
  {
  }

}
