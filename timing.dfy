/** The episode timing engine of the watch-list page: the status of a show
    and the countdown to its next weekly episode. Timestamps are integer
    milliseconds since the epoch (what `Date.getTime()` returns), and the
    current time `now` is a parameter instead of `new Date()`. */
module Timing {

  const MsInSecond: int := 1000
  const MsInMinute: int := 60 * MsInSecond
  const MsInHour: int := 60 * MsInMinute
  const MsInDay: int := 24 * MsInHour
  /** `msInWeek = 7 * 24 * 60 * 60 * 1000`. */
  const MsInWeek: int := 7 * 24 * 60 * 60 * 1000

  datatype Status = Soon | Ongoing | Finished

  /** The string the page stores in `computedStatus`. */
  function StatusText(s: Status): (r: string)
    ensures r != ""
  {
    match s
    case Soon => "Soon"
    case Ongoing => "Ongoing"
    case Finished => "Finished"
  }

  /** `getEpisodeStatus`: Soon before the start, Finished after the end,
      Ongoing otherwise; the Soon test comes first. */
  function EpisodeStatus(now: int, start: int, end: int): (r: Status)
    ensures r == Soon <==> now < start
    ensures r == Finished <==> start <= now && end < now
    ensures r == Ongoing <==> start <= now <= end
  {
    if now < start then Soon
    else if now > end then Finished
    else Ongoing
  }

  /** The result of `getNextEpisodeCountdown`: the numbers of the string
      "Next episode in {d}d {h}h {m}m {s}s", or the string
      "Episode airing now or just released.". */
  datatype Countdown = NextEpisodeIn(days: int, hours: int, minutes: int, seconds: int) | AiringNow

  /** `weeksSinceStart`: whole weeks from the start to now, rounded down
      (Dafny's `/` by a positive divisor is `Math.floor` of the quotient). */
  function WeeksSinceStart(now: int, start: int): (r: int)
    ensures start + r * MsInWeek <= now < start + (r + 1) * MsInWeek
  {
    (now - start) / MsInWeek
  }

  /** `nextEpisodeDate`: the weekly boundary after `weeksSinceStart` weeks.
      It is the first boundary strictly after now, also before the show starts. */
  function NextEpisodeDate(now: int, start: int): (r: int)
    ensures now < r <= now + MsInWeek
    ensures (r - start) % MsInWeek == 0
  {
    var w := WeeksSinceStart(now, start);
    assert (start + (w + 1) * MsInWeek) - start == (w + 1) * MsInWeek;
    start + (w + 1) * MsInWeek
  }

  /** `getNextEpisodeCountdown`. The floating-point quotients and remainders
      of the source, floored, are integer `/` and `%` on the non-negative
      difference. */
  function NextEpisodeCountdown(now: int, start: int): Countdown
  {
    var next := NextEpisodeDate(now, start);
    if now < next then
      var timeDiff := next - now;
      NextEpisodeIn(timeDiff / MsInDay, (timeDiff / MsInHour) % 24,
                    (timeDiff / MsInMinute) % 60, (timeDiff / MsInSecond) % 60)
    else
      AiringNow
  }

  /** The milliseconds a countdown stands for. */
  function Millis(c: Countdown): int
  {
    match c
    case NextEpisodeIn(d, h, m, s) => d * MsInDay + h * MsInHour + m * MsInMinute + s * MsInSecond
    case AiringNow => 0
  }

  // ---------------------------------------------------------------------
  // Status

  /** Equality with the start or with the end is Ongoing. */
  lemma BoundariesAreOngoing(start: int, end: int)
    requires start <= end
    ensures EpisodeStatus(start, start, end) == Ongoing
    ensures EpisodeStatus(end, start, end) == Ongoing
  {
  }

  /** With the end before the start no time is Ongoing: Soon wins below the
      start because it is tested first, and Finished holds from the start on. */
  lemma InvertedWindow(now: int, start: int, end: int)
    requires end < start
    ensures EpisodeStatus(now, start, end) == if now < start then Soon else Finished
  {
  }

  function Rank(s: Status): int
  {
    match s
    case Soon => 0
    case Ongoing => 1
    case Finished => 2
  }

  /** As time passes the status only moves forward: Soon, then Ongoing, then Finished. */
  lemma StatusMonotone(now: int, later: int, start: int, end: int)
    requires now <= later
    ensures Rank(EpisodeStatus(now, start, end)) <= Rank(EpisodeStatus(later, start, end))
  {
  }

  // ---------------------------------------------------------------------
  // Countdown

  /** No weekly boundary after now comes before the next episode. */
  lemma NextEpisodeIsEarliest(now: int, start: int, k: int)
    requires now < start + k * MsInWeek
    ensures NextEpisodeDate(now, start) <= start + k * MsInWeek
  {
    var w := WeeksSinceStart(now, start);
    assert start + w * MsInWeek <= now;
    assert w < k;
  }

  /** The `now < nextEpisodeDate` test always succeeds, so the "airing now"
      string is never produced. */
  lemma AiringNowUnreachable(now: int, start: int)
    ensures NextEpisodeCountdown(now, start).NextEpisodeIn?
  {
  }

  /** The bounds of the countdown's numbers; a full week of days only on a
      boundary, and then nothing more. */
  lemma CountdownBounds(now: int, start: int)
    ensures var c := NextEpisodeCountdown(now, start);
      && c.NextEpisodeIn?
      && 0 <= c.days <= 7 && 0 <= c.hours < 24 && 0 <= c.minutes < 60 && 0 <= c.seconds < 60
      && (c.days == 7 <==> NextEpisodeDate(now, start) - now == MsInWeek)
      && (c.days == 7 ==> c.hours == 0 && c.minutes == 0 && c.seconds == 0)
  {
  }

  lemma {:induction false} MulAtLeast(a: int, q: int)
    requires 1 <= a && 0 < q
    ensures q <= a * q
    decreases a
  {
    if a > 1 {
      MulAtLeast(a - 1, q);
      assert a * q == (a - 1) * q + q;
    }
  }

  /** Quotient and remainder are determined by any split with a remainder in range. */
  lemma DivModUnique(x: int, q: int, k: int, r: int)
    requires 0 < q && 0 <= r < q && x == k * q + r
    ensures x / q == k && x % q == r
  {
    var k', r' := x / q, x % q;
    assert x == k' * q + r' && 0 <= r' < q;
    if k' < k {
      MulAtLeast(k - k', q);
    } else if k < k' {
      MulAtLeast(k' - k, q);
    }
  }

  /** A non-negative duration read as days, hours, minutes, seconds and
      milliseconds, the way the countdown reads it. */
  lemma SplitDuration(t: int, d: int, h: int, m: int, s: int, ms: int)
    requires 0 <= h < 24 && 0 <= m < 60 && 0 <= s < 60 && 0 <= ms < 1000
    requires t == d * MsInDay + h * MsInHour + m * MsInMinute + s * MsInSecond + ms
    ensures t / MsInDay == d
    ensures (t / MsInHour) % 24 == h
    ensures (t / MsInMinute) % 60 == m
    ensures (t / MsInSecond) % 60 == s
  {
    DivModUnique(t, MsInDay, d, h * MsInHour + m * MsInMinute + s * MsInSecond + ms);
    DivModUnique(t, MsInHour, d * 24 + h, m * MsInMinute + s * MsInSecond + ms);
    DivModUnique(d * 24 + h, 24, d, h);
    DivModUnique(t, MsInMinute, (d * 24 + h) * 60 + m, s * MsInSecond + ms);
    DivModUnique((d * 24 + h) * 60 + m, 60, d * 24 + h, m);
    DivModUnique(t, MsInSecond, ((d * 24 + h) * 60 + m) * 60 + s, ms);
    DivModUnique(((d * 24 + h) * 60 + m) * 60 + s, 60, (d * 24 + h) * 60 + m, s);
  }

  /** The countdown is the time left to the next episode, truncated to whole seconds. */
  lemma CountdownReconstruction(now: int, start: int)
    ensures var c := NextEpisodeCountdown(now, start);
      var timeDiff := NextEpisodeDate(now, start) - now;
      Millis(c) <= timeDiff < Millis(c) + MsInSecond
  {
    var t := NextEpisodeDate(now, start) - now;
    var secs := t / MsInSecond;
    var mins := secs / 60;
    var hrs := mins / 60;
    var d := hrs / 24;
    SplitDuration(t, d, hrs % 24, mins % 60, secs % 60, t % MsInSecond);
  }

  /** The countdown is the only days/hours/minutes/seconds split of the time
      left with hours below 24 and minutes and seconds below 60. */
  lemma CountdownUnique(now: int, start: int, d: int, h: int, m: int, s: int)
    requires 0 <= h < 24 && 0 <= m < 60 && 0 <= s < 60
    requires var c := NextEpisodeIn(d, h, m, s);
      Millis(c) <= NextEpisodeDate(now, start) - now < Millis(c) + MsInSecond
    ensures NextEpisodeCountdown(now, start) == NextEpisodeIn(d, h, m, s)
  {
    var t := NextEpisodeDate(now, start) - now;
    SplitDuration(t, d, h, m, s, t - Millis(NextEpisodeIn(d, h, m, s)));
  }

  /** Exactly on an episode the countdown is a full week. */
  lemma CountdownOnBoundary(start: int, k: int)
    ensures NextEpisodeCountdown(start + k * MsInWeek, start) == NextEpisodeIn(7, 0, 0, 0)
  {
    var now := start + k * MsInWeek;
    assert WeeksSinceStart(now, start) == k;
  }

  // ---------------------------------------------------------------------
  // Concrete dates: 2024-01-01T00:00:00Z is 1704067200000, 2024-01-08 is
  // 1704672000000, 2024-06-01 is 1717200000000.

  lemma ScenarioStartDayIsOngoing()
    ensures EpisodeStatus(1704067200000, 1704067200000, 1717200000000) == Ongoing
  {
  }

  lemma ScenarioBeforeStartIsSoon()
    ensures EpisodeStatus(1704067200000, 1704672000000, 1717200000000) == Soon
  {
  }

  lemma ScenarioOneWeekInIsFullWeek()
    ensures NextEpisodeDate(1704672000000, 1704067200000) == 1704067200000 + 2 * MsInWeek
    ensures NextEpisodeCountdown(1704672000000, 1704067200000) == NextEpisodeIn(7, 0, 0, 0)
  {
    CountdownOnBoundary(1704067200000, 1);
  }
}
