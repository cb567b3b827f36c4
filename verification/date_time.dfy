/** Humanised commit times: a relative duration ("5m ago", "in 10s") for times within a
    week of now, an absolute calendar date beyond that. The clock, the duration renderer
    (`humantime`) and the date renderer (`chrono`) are parameters. */
module DateTime {
  import opened Git

  const WeekInSeconds: nat := 60 * 60 * 24 * 7

  const NanosPerSecond: nat := 1_000_000_000

  /** The largest number of seconds a `SystemTime` can lie after the epoch. */
  const MaxSystemSeconds: nat := 0x7FFF_FFFF_FFFF_FFFF

  /** A point in time (`SystemTime`), in nanoseconds since the Unix epoch. */
  type Instant = nat

  /** The instant `seconds` whole seconds after the epoch. */
  function AtSeconds(seconds: nat): Instant
  {
    seconds * NanosPerSecond
  }

  /** The length of the time between two instants, whichever comes first. */
  function Distance(a: Instant, b: Instant): nat
  {
    if a > b then a - b else b - a
  }

  /** The whole seconds of the distance between a timestamp and now: sub-second parts
      are dropped. */
  function DiffSeconds(timestamp: nat, now: Instant): (d: nat)
    ensures d * NanosPerSecond <= Distance(AtSeconds(timestamp), now) < (d + 1) * NanosPerSecond
  {
    Distance(AtSeconds(timestamp), now) / NanosPerSecond
  }

  /** `format_timestamp` with the clock reading `now` made explicit. `formatDuration`
      renders whole seconds (`humantime::format_duration`) and `formatDate` a date from
      seconds since the epoch (`chrono`'s `%v`). */
  function FormatTimestamp(
    timestamp: u64, now: Instant, formatDuration: nat -> string, formatDate: i64 -> string
  ): (r: string)
    requires timestamp as int <= MaxSystemSeconds
    ensures DiffSeconds(timestamp as nat, now) > WeekInSeconds ==>
      r == formatDate(timestamp as int as i64)
    ensures DiffSeconds(timestamp as nat, now) <= WeekInSeconds && AtSeconds(timestamp as nat) > now ==>
      r == "in " + formatDuration(DiffSeconds(timestamp as nat, now))
    ensures DiffSeconds(timestamp as nat, now) <= WeekInSeconds && AtSeconds(timestamp as nat) <= now ==>
      r == formatDuration(DiffSeconds(timestamp as nat, now)) + " ago"
  {
    var time := AtSeconds(timestamp as nat);
    var diff := if time > now then time - now else now - time;
    if diff / NanosPerSecond > WeekInSeconds then
      formatDate(timestamp as int as i64)
    else
      var humanDiff := formatDuration(diff / NanosPerSecond);
      if time > now then "in " + humanDiff else humanDiff + " ago"
  }

  /** The distance does not depend on which of the two instants comes first. */
  lemma DistanceIsSymmetric(a: Instant, b: Instant)
    ensures Distance(a, b) == Distance(b, a)
  {
  }

  /** When now is a whole second, the relative/absolute choice compares whole seconds:
      the absolute date is shown exactly when the times lie more than 604800 seconds apart,
      so a distance of exactly one week is still shown as relative. */
  lemma {:induction false} AbsoluteBeyondAWeek(timestamp: nat, nowSeconds: nat)
    ensures DiffSeconds(timestamp, AtSeconds(nowSeconds)) ==
      (if timestamp > nowSeconds then timestamp - nowSeconds else nowSeconds - timestamp)
    ensures DiffSeconds(timestamp, AtSeconds(nowSeconds)) > WeekInSeconds <==>
      (timestamp > nowSeconds + WeekInSeconds || nowSeconds > timestamp + WeekInSeconds)
  {
    var d := if timestamp > nowSeconds then timestamp - nowSeconds else nowSeconds - timestamp;
    assert Distance(AtSeconds(timestamp), AtSeconds(nowSeconds)) == d * NanosPerSecond;
  }

  /** The absolute date depends on the timestamp only: `now` merely selects the branch. */
  lemma AbsoluteDateIgnoresNow(
    timestamp: u64, now1: Instant, now2: Instant, formatDuration: nat -> string, formatDate: i64 -> string)
    requires timestamp as int <= MaxSystemSeconds
    requires DiffSeconds(timestamp as nat, now1) > WeekInSeconds
    requires DiffSeconds(timestamp as nat, now2) > WeekInSeconds
    ensures FormatTimestamp(timestamp, now1, formatDuration, formatDate)
         == FormatTimestamp(timestamp, now2, formatDuration, formatDate)
  {
  }

  /** With now at whole second `n`: 30 seconds before is "30s ago", 10 seconds after is
      "in 10s", 8 days before is the date. */
  lemma HumanisedExamples(n: nat, formatDuration: nat -> string, formatDate: i64 -> string)
    requires 8 * 24 * 60 * 60 <= n <= MaxSystemSeconds - 10
    requires formatDuration(30) == "30s" && formatDuration(10) == "10s"
    ensures FormatTimestamp((n - 30) as u64, AtSeconds(n), formatDuration, formatDate) == "30s ago"
    ensures FormatTimestamp((n + 10) as u64, AtSeconds(n), formatDuration, formatDate) == "in 10s"
    ensures var eightDaysAgo := n - 8 * 24 * 60 * 60;
      FormatTimestamp(eightDaysAgo as u64, AtSeconds(n), formatDuration, formatDate)
        == formatDate(eightDaysAgo as i64)
  {
    AbsoluteBeyondAWeek(n - 30, n);
    AbsoluteBeyondAWeek(n + 10, n);
    AbsoluteBeyondAWeek(n - 8 * 24 * 60 * 60, n);
  }
}
