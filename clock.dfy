/**
 * Integer clock reconciliation (include/components/interpreter/time_manager.go):
 * a kernel monotonic timestamp in nanoseconds is moved onto the wall clock by
 * the offset between two reference readings, split into seconds and
 * nanoseconds with Go's truncating division, and normalised by `time.Unix`.
 */
module Clock {
  const Nano: int := 1_000_000_000

  /** Go's `/` on integers: the quotient truncated toward zero. */
  function GoDiv(a: int, b: int): (q: int)
    requires b > 0
    ensures a >= 0 ==> q == a / b
    ensures a < 0 ==> q == -((-a) / b)
  {
    if a >= 0 then a / b else -((-a) / b)
  }

  /** Go's `%` on integers: the remainder of the truncated quotient, with the sign of `a`. */
  function GoRem(a: int, b: int): int
    requires b > 0
  {
    a - b * GoDiv(a, b)
  }

  /** Go's quotient and remainder recombine to the dividend; the remainder is below the divisor in size and has the dividend's sign. */
  lemma GoDivRem(a: int, b: int)
    requires b > 0
    ensures GoDiv(a, b) * b + GoRem(a, b) == a
    ensures -b < GoRem(a, b) < b
    ensures a >= 0 ==> 0 <= GoRem(a, b)
    ensures a < 0 ==> GoRem(a, b) <= 0
  {
    if a < 0 {
      var q := (-a) / b;
      var r := (-a) % b;
      assert -a == q * b + r && 0 <= r < b;
      assert GoRem(a, b) == -r;
    }
  }

  /** A `time.Time`: whole seconds since the Unix epoch and nanoseconds in [0, 1e9). */
  datatype Instant = Instant(sec: int, nsec: int)

  predicate Normal(t: Instant)
  {
    0 <= t.nsec < Nano
  }

  /** The instant as nanoseconds since the epoch. */
  function TotalNs(t: Instant): int
  {
    t.sec * Nano + t.nsec
  }

  /**
   * `time.Unix(sec, nsec)`: a nanosecond count outside [0, 1e9) is carried into
   * the seconds, with a last correction when it is negative.
   */
  function Unix(sec: int, nsec: int): (t: Instant)
    ensures Normal(t)
    ensures TotalNs(t) == sec * Nano + nsec
  {
    if nsec < 0 || nsec >= Nano then
      var n := GoDiv(nsec, Nano);
      var s1 := sec + n;
      var ns1 := nsec - n * Nano;
      GoDivRem(nsec, Nano);
      if ns1 < 0 then Instant(s1 - 1, ns1 + Nano) else Instant(s1, ns1)
    else
      Instant(sec, nsec)
  }

  /** The reference readings, both in nanoseconds. */
  datatype TimeManager = TimeManager(refWall: int, refMono: int)

  /** The wall-clock nanoseconds of a monotonic timestamp (time_manager.go:42-45). */
  function WallNs(tm: TimeManager, t: int): int
  {
    tm.refWall + (t - tm.refMono)
  }

  /** `ToTime`: the wall-clock nanoseconds split with Go's `/` and `%`, then normalised. */
  function ToTime(tm: TimeManager, t: int): Instant
  {
    var eventWallNs := WallNs(tm, t);
    Unix(GoDiv(eventWallNs, Nano), GoRem(eventWallNs, Nano))
  }

  /** The split of time_manager.go:47-48 recombines exactly, with a remainder below a second carrying the sign of the total. */
  lemma SplitExact(tm: TimeManager, t: int)
    ensures var w := WallNs(tm, t);
      && GoDiv(w, Nano) * Nano + GoRem(w, Nano) == w
      && -Nano < GoRem(w, Nano) < Nano
      && (w >= 0 ==> GoRem(w, Nano) >= 0) && (w < 0 ==> GoRem(w, Nano) <= 0)
  {
    GoDivRem(WallNs(tm, t), Nano);
  }

  /** `ToTime(t)` is exactly the instant refWall + (t - refMono) nanoseconds after the epoch. */
  lemma ToTimeExact(tm: TimeManager, t: int)
    ensures Normal(ToTime(tm, t))
    ensures TotalNs(ToTime(tm, t)) == tm.refWall + (t - tm.refMono)
  {
    SplitExact(tm, t);
  }

  /** At the monotonic reference the conversion gives exactly the wall reference. */
  lemma AtReference(tm: TimeManager)
    ensures TotalNs(ToTime(tm, tm.refMono)) == tm.refWall
  {
    ToTimeExact(tm, tm.refMono);
  }

  /** Later timestamps never map to earlier instants. */
  lemma Monotone(tm: TimeManager, a: int, b: int)
    requires a <= b
    ensures TotalNs(ToTime(tm, a)) <= TotalNs(ToTime(tm, b))
  {
    ToTimeExact(tm, a);
    ToTimeExact(tm, b);
  }

  /** Shifting the timestamp by d shifts the instant by d nanoseconds, whatever the references. */
  lemma Shift(tm: TimeManager, t: int, d: int)
    ensures TotalNs(ToTime(tm, t + d)) - TotalNs(ToTime(tm, t)) == d
  {
    ToTimeExact(tm, t);
    ToTimeExact(tm, t + d);
  }

  /** `t.Sub(u)` in nanoseconds. */
  function Sub(t: Instant, u: Instant): int
  {
    TotalNs(t) - TotalNs(u)
  }
}
