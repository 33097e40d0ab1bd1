/**
 * Rust's `Duration` and libevent's `timeval`, and the conversion between
 * them that every timeout handed to libevent goes through.
 */
module Time {
  import opened Ints

  const NanosPerMicro: nat := 1_000
  const MicrosPerSec: nat := 1_000_000
  const NanosPerSec: nat := 1_000_000_000

  /** The sub-second part of a `Duration`, in nanoseconds. */
  type SubsecNanos = n: nat | n < 1_000_000_000

  /** A `Duration`: whole seconds (`as_secs`) and the sub-second nanoseconds (`subsec_nanos`). */
  datatype Duration = Duration(secs: u64, nanos: SubsecNanos)

  /** A `timeval` as libevent reads it; `time_t` and `suseconds_t` are 64-bit. */
  datatype Timeval = Timeval(tvSec: i64, tvUsec: i64)

  /** The whole length of a duration in nanoseconds. */
  function TotalNanos(d: Duration): nat
  {
    d.secs as nat * NanosPerSec + d.nanos
  }

  /** The length a `timeval` stands for, in microseconds. */
  function TotalMicros(tv: Timeval): int
  {
    tv.tvSec as int * MicrosPerSec + tv.tvUsec as int
  }

  /** Durations whose seconds fit the signed `time_t` without wrapping. */
  predicate FitsTimeT(d: Duration)
  {
    d.secs < 0x8000_0000_0000_0000
  }

  /**
   * `to_timeval`: whole seconds go to `tv_sec` through a wrapping `as` cast;
   * the sub-second part goes to `tv_usec` in whole microseconds, the
   * remaining nanoseconds dropped.
   */
  function ToTimeval(d: Duration): (tv: Timeval)
    ensures 0 <= tv.tvUsec as int < MicrosPerSec
    ensures tv.tvUsec as int == d.nanos / NanosPerMicro
    ensures (tv.tvSec as int - d.secs as int) % 0x1_0000_0000_0000_0000 == 0
    ensures tv.tvSec >= 0 <==> FitsTimeT(d)
  {
    Timeval(U64ToI64(d.secs), (d.nanos / NanosPerMicro) as i64)
  }

  /**
   * For a duration whose seconds fit `time_t`, the `timeval` is the duration
   * truncated (never rounded up) to whole microseconds.
   */
  lemma TimevalTruncates(d: Duration)
    requires FitsTimeT(d)
    ensures TotalMicros(ToTimeval(d)) * NanosPerMicro <= TotalNanos(d)
    ensures TotalNanos(d) < TotalMicros(ToTimeval(d)) * NanosPerMicro + NanosPerMicro
  {
  }

  /** A longer duration never gives a shorter `timeval`. */
  lemma ToTimevalMonotone(d1: Duration, d2: Duration)
    requires FitsTimeT(d1) && FitsTimeT(d2)
    requires TotalNanos(d1) <= TotalNanos(d2)
    ensures TotalMicros(ToTimeval(d1)) <= TotalMicros(ToTimeval(d2))
  {
  }

  /** A `timeval` libevent accepts: non-negative, with fewer than a million microseconds. */
  predicate NormalTimeval(tv: Timeval)
  {
    tv.tvSec >= 0 && 0 <= tv.tvUsec as int < MicrosPerSec
  }

  /** The duration a normal `timeval` stands for. */
  function FromTimeval(tv: Timeval): (d: Duration)
    requires NormalTimeval(tv)
    ensures FitsTimeT(d)
    ensures TotalNanos(d) == TotalMicros(tv) * NanosPerMicro
  {
    Duration(tv.tvSec as int as u64, tv.tvUsec as nat * NanosPerMicro)
  }

  /** Every normal `timeval` is what `to_timeval` gives for its own duration. */
  lemma TimevalRoundTrip(tv: Timeval)
    requires NormalTimeval(tv)
    ensures ToTimeval(FromTimeval(tv)) == tv
  {
  }

  /**
   * A duration survives the trip through a `timeval` exactly when it has no
   * sub-microsecond part: the conversion loses nothing else.
   */
  lemma DurationRoundTrip(d: Duration)
    requires FitsTimeT(d)
    ensures NormalTimeval(ToTimeval(d))
    ensures FromTimeval(ToTimeval(d)) == d <==> d.nanos % NanosPerMicro == 0
  {
  }
}
