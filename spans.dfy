/**
 * The part of a `jiff::Span` that the formatter reads: eight signed whole-unit
 * components. In jiff every component of a span carries the span's one sign;
 * `SameSign` states that invariant, and the lemmas that depend on it require it.
 */
module Spans {
  import opened Numerals

  const NANOS_PER_MICRO: nat := 1_000
  const NANOS_PER_MILLI: nat := 1_000_000
  const NANOS_PER_SECOND: nat := 1_000_000_000
  const NANOS_PER_MINUTE: nat := 60_000_000_000
  const NANOS_PER_HOUR: nat := 3_600_000_000_000
  /** A day is taken as 24 hours and a week as 7 such days. */
  const NANOS_PER_DAY: nat := 86_400_000_000_000
  const NANOS_PER_WEEK: nat := 604_800_000_000_000

  datatype Span = Span(
    weeks: int, days: int, hours: int, minutes: int,
    seconds: int, millis: int, micros: int, nanos: int)

  /** `jiff::Span::default()`, the empty span. */
  const Zero := Span(0, 0, 0, 0, 0, 0, 0, 0)

  /** The one-component spans built by `n.weeks()`, `n.days()`, ... */
  function FromWeeks(n: int): Span { Zero.(weeks := n) }
  function FromDays(n: int): Span { Zero.(days := n) }
  function FromHours(n: int): Span { Zero.(hours := n) }
  function FromMinutes(n: int): Span { Zero.(minutes := n) }
  function FromSeconds(n: int): Span { Zero.(seconds := n) }
  function FromMillis(n: int): Span { Zero.(millis := n) }
  function FromMicros(n: int): Span { Zero.(micros := n) }
  function FromNanos(n: int): Span { Zero.(nanos := n) }

  predicate NonNegative(s: Span) {
    s.weeks >= 0 && s.days >= 0 && s.hours >= 0 && s.minutes >= 0 &&
    s.seconds >= 0 && s.millis >= 0 && s.micros >= 0 && s.nanos >= 0
  }

  predicate NonPositive(s: Span) {
    s.weeks <= 0 && s.days <= 0 && s.hours <= 0 && s.minutes <= 0 &&
    s.seconds <= 0 && s.millis <= 0 && s.micros <= 0 && s.nanos <= 0
  }

  /** All components share one sign. */
  predicate SameSign(s: Span) {
    NonNegative(s) || NonPositive(s)
  }

  predicate IsZero(s: Span) {
    s == Zero
  }

  /** The span with every component negated. */
  function Neg(s: Span): Span {
    Span(-s.weeks, -s.days, -s.hours, -s.minutes,
         -s.seconds, -s.millis, -s.micros, -s.nanos)
  }

  /** `checked_sub`, taken componentwise (no rebalancing between units). */
  function Sub(a: Span, b: Span): (r: Span)
    ensures b == Zero ==> r == a
    ensures TotalNanos(r) == TotalNanos(a) - TotalNanos(b)
  {
    Span(a.weeks - b.weeks, a.days - b.days, a.hours - b.hours, a.minutes - b.minutes,
         a.seconds - b.seconds, a.millis - b.millis, a.micros - b.micros, a.nanos - b.nanos)
  }

  /** The exact length of the span in nanoseconds. */
  function TotalNanos(s: Span): int {
    s.weeks * NANOS_PER_WEEK + s.days * NANOS_PER_DAY + s.hours * NANOS_PER_HOUR
    + s.minutes * NANOS_PER_MINUTE + s.seconds * NANOS_PER_SECOND
    + s.millis * NANOS_PER_MILLI + s.micros * NANOS_PER_MICRO + s.nanos
  }

  /** The same length built from the magnitudes of the components. */
  function MagnitudeNanos(s: Span): nat {
    Abs(s.weeks) * NANOS_PER_WEEK + Abs(s.days) * NANOS_PER_DAY + Abs(s.hours) * NANOS_PER_HOUR
    + Abs(s.minutes) * NANOS_PER_MINUTE + Abs(s.seconds) * NANOS_PER_SECOND
    + Abs(s.millis) * NANOS_PER_MILLI + Abs(s.micros) * NANOS_PER_MICRO + Abs(s.nanos)
  }

  datatype Ordering = Less | Equal | Greater

  /** `span.compare(Span::default())`: the sign of the span's length. */
  function CompareToZero(s: Span): Ordering {
    var t := TotalNanos(s);
    if t < 0 then Less else if t > 0 then Greater else Equal
  }

  lemma TotalNanosNeg(s: Span)
    ensures Neg(Neg(s)) == s
    ensures TotalNanos(Neg(s)) == -TotalNanos(s)
  {
    var n := Neg(s);
    assert n.weeks * NANOS_PER_WEEK == -(s.weeks * NANOS_PER_WEEK);
    assert n.days * NANOS_PER_DAY == -(s.days * NANOS_PER_DAY);
    assert n.hours * NANOS_PER_HOUR == -(s.hours * NANOS_PER_HOUR);
    assert n.minutes * NANOS_PER_MINUTE == -(s.minutes * NANOS_PER_MINUTE);
    assert n.seconds * NANOS_PER_SECOND == -(s.seconds * NANOS_PER_SECOND);
    assert n.millis * NANOS_PER_MILLI == -(s.millis * NANOS_PER_MILLI);
    assert n.micros * NANOS_PER_MICRO == -(s.micros * NANOS_PER_MICRO);
  }

  lemma MagnitudeNanosNeg(s: Span)
    ensures MagnitudeNanos(Neg(s)) == MagnitudeNanos(s)
  {
    var n := Neg(s);
    assert Abs(n.weeks) == Abs(s.weeks) && Abs(n.days) == Abs(s.days);
    assert Abs(n.hours) == Abs(s.hours) && Abs(n.minutes) == Abs(s.minutes);
    assert Abs(n.seconds) == Abs(s.seconds) && Abs(n.millis) == Abs(s.millis);
    assert Abs(n.micros) == Abs(s.micros) && Abs(n.nanos) == Abs(s.nanos);
  }

  /** For a span whose components share one sign, its length in magnitude is the
      sum of the components' magnitudes, and it is zero only for the empty span. */
  lemma SameSignMagnitude(s: Span)
    requires SameSign(s)
    ensures Abs(TotalNanos(s)) == MagnitudeNanos(s)
    ensures TotalNanos(s) == 0 <==> IsZero(s)
    ensures NonNegative(s) ==> TotalNanos(s) >= 0
    ensures NonPositive(s) ==> TotalNanos(s) <= 0
  {
    if NonNegative(s) {
      assert TotalNanos(s) == MagnitudeNanos(s);
    } else {
      TotalNanosNeg(s);
      MagnitudeNanosNeg(s);
      assert TotalNanos(Neg(s)) == MagnitudeNanos(Neg(s));
    }
  }

  /** For such a span, comparing with the empty span is reading its common sign. */
  lemma CompareIsSign(s: Span)
    requires SameSign(s)
    ensures CompareToZero(s) == Equal <==> IsZero(s)
    ensures CompareToZero(s) == Greater <==> NonNegative(s) && !IsZero(s)
    ensures CompareToZero(s) == Less <==> NonPositive(s) && !IsZero(s)
  {
    SameSignMagnitude(s);
  }
}
