/** `format_time`: a modification time as text. The calendar conversion and
    the `%b %d %H:%M` pattern belong to the chrono library and are taken as
    a parameter; what the source itself decides is modelled here. */
module TimeFormat {
  import opened Wrappers

  /** A `SystemTime`, as nanoseconds relative to the Unix epoch (negative
      before it). */
  type Instant = int

  const NANOS_PER_SECOND: nat := 1_000_000_000

  /** The text shown when the file system gives no modification time. */
  const PLACEHOLDER: string := "???"

  /** `duration_since(UNIX_EPOCH).unwrap_or_default().as_secs()`: whole
      seconds after the epoch, and 0 for an instant before it. */
  function EpochSeconds(t: Instant): (s: nat)
    ensures t < 0 ==> s == 0
    ensures t >= 0 ==> s * NANOS_PER_SECOND <= t < (s + 1) * NANOS_PER_SECOND
  {
    if t < 0 then 0 else t / NANOS_PER_SECOND
  }

  /** `calendar(s)` stands for chrono's rendering of `s` seconds after the
      epoch as `Mon DD HH:MM`. */
  function FormatTime(time: Option<Instant>, calendar: nat -> string): (r: string)
    ensures time.None? ==> r == PLACEHOLDER
    ensures time.Some? ==> r == calendar(EpochSeconds(time.value))
  {
    match time
    case None => PLACEHOLDER
    case Some(t) => calendar(EpochSeconds(t))
  }

  /** Two instants in the same whole second render alike, and every instant
      before the epoch renders as the epoch itself. */
  lemma SameSecondSameText(a: Instant, b: Instant, calendar: nat -> string)
    requires (a < 0 && b < 0) || (0 <= a && 0 <= b && a / NANOS_PER_SECOND == b / NANOS_PER_SECOND)
    ensures FormatTime(Some(a), calendar) == FormatTime(Some(b), calendar)
    ensures a < 0 ==> FormatTime(Some(a), calendar) == FormatTime(Some(0), calendar)
  {
  }
}
