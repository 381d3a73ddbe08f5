/**
 * The sidebar's relative timestamp: the time since a conversation's
 * timestamp, in whole hours, picks one of four labels.  Times are integer
 * milliseconds since the epoch; `toLocaleDateString` is a parameter.
 */
module RelativeTime {
  import opened Decimal

  const MsPerHour: int := 1000 * 60 * 60

  /** The four labels the sidebar can show. */
  datatype Age = JustNow | HoursAgo(hours: nat) | DaysAgo(days: nat) | OnDate

  /** Whole hours from `date` to `now`, rounded down (so a future `date` gives a negative count). */
  function ElapsedHours(now: int, date: int): int
  {
    (now - date) / MsPerHour
  }

  /** ElapsedHours is floor division, also for negative differences. */
  lemma ElapsedHoursIsFloor(now: int, date: int)
    ensures ElapsedHours(now, date) * MsPerHour <= now - date < (ElapsedHours(now, date) + 1) * MsPerHour
  {
  }

  /**
   * The label chosen for a timestamp, stated on the elapsed milliseconds:
   * less than an hour (or in the future), 1 to 23 whole hours, 1 to 6 whole
   * days, or a week or more.
   */
  function Classify(now: int, date: int): (a: Age)
    ensures a.JustNow? <==> now - date < MsPerHour
    ensures a.HoursAgo? <==> MsPerHour <= now - date < 24 * MsPerHour
    ensures a.DaysAgo? <==> 24 * MsPerHour <= now - date < 168 * MsPerHour
    ensures a.OnDate? <==> 168 * MsPerHour <= now - date
    ensures a.HoursAgo? ==>
              1 <= a.hours <= 23 && a.hours * MsPerHour <= now - date < (a.hours + 1) * MsPerHour
    ensures a.DaysAgo? ==>
              1 <= a.days <= 6 && a.days * 24 * MsPerHour <= now - date < (a.days + 1) * 24 * MsPerHour
  {
    var h := ElapsedHours(now, date);
    HoursBelow(now, date, 1);
    HoursBelow(now, date, 24);
    HoursBelow(now, date, 168);
    ElapsedHoursIsFloor(now, date);
    if h < 1 then JustNow
    else if h < 24 then HoursAgo(h)
    else if h < 168 then (DaysBounds(now, date); DaysAgo(h / 24))
    else OnDate
  }

  /** Fewer than `n` whole hours have passed exactly when less than `n` hours' worth of milliseconds have. */
  lemma HoursBelow(now: int, date: int, n: int)
    ensures ElapsedHours(now, date) < n <==> now - date < n * MsPerHour
  {
    ElapsedHoursIsFloor(now, date);
  }

  /** Whole days of 24 to 167 whole hours, as the source computes them, bracket the elapsed time. */
  lemma DaysBounds(now: int, date: int)
    requires 24 <= ElapsedHours(now, date) < 168
    ensures var d := ElapsedHours(now, date) / 24;
            1 <= d <= 6 && d * 24 * MsPerHour <= now - date < (d + 1) * 24 * MsPerHour
  {
    var h := ElapsedHours(now, date);
    var d := h / 24;
    ElapsedHoursIsFloor(now, date);
    assert d * 24 <= h < (d + 1) * 24;
    assert d * 24 * MsPerHour <= h * MsPerHour;
    assert (h + 1) * MsPerHour <= (d + 1) * 24 * MsPerHour;
  }

  /** The text shown for an age; `localeDate` is what `toLocaleDateString` gives for the timestamp. */
  function Render(a: Age, localeDate: string): string
  {
    match a
    case JustNow => "Just now"
    case HoursAgo(h) => NatToString(h) + "h ago"
    case DaysAgo(d) => NatToString(d) + "d ago"
    case OnDate => localeDate
  }

  /**
   * `formatTime`: the text for each bucket of whole elapsed hours, the four
   * buckets covering every timestamp; `toLocaleDateString` is the parameter
   * `localeDate`.
   */
  function FormatTime(now: int, date: int, localeDate: int -> string): (r: string)
    ensures var h := ElapsedHours(now, date);
            && (h < 1 ==> r == "Just now")
            && (1 <= h < 24 ==> r == NatToString(h) + "h ago")
            && (24 <= h < 168 ==> 1 <= h / 24 <= 6 && r == NatToString(h / 24) + "d ago")
            && (168 <= h ==> r == localeDate(date))
  {
    HoursBelow(now, date, 1);
    HoursBelow(now, date, 24);
    HoursBelow(now, date, 168);
    if 24 <= ElapsedHours(now, date) < 168 then
      ClassifiedDays(now, date);
      Render(Classify(now, date), localeDate(date))
    else
      Render(Classify(now, date), localeDate(date))
  }

  /** Within a week, the day count Classify gives is the source's `Math.floor(diffInHours / 24)`. */
  lemma ClassifiedDays(now: int, date: int)
    requires 24 <= ElapsedHours(now, date) < 168
    ensures Classify(now, date) == DaysAgo(ElapsedHours(now, date) / 24)
  {
  }

  /** A timestamp in the future, or less than an hour old, reads "Just now". */
  lemma FutureIsJustNow(now: int, date: int, localeDate: int -> string)
    requires now - date < MsPerHour
    ensures FormatTime(now, date, localeDate) == "Just now"
  {
  }

  /** The relative labels tell their ages apart: equal labels come from equal ages. */
  lemma RenderInjective(a: Age, b: Age, localeDate: string)
    requires !a.OnDate? && !b.OnDate?
    requires Render(a, localeDate) == Render(b, localeDate)
    ensures a == b
  {
    var r := Render(a, localeDate);
    // The last four characters: "now" (after a blank) or " ago", and before " ago" an 'h' or a 'd'.
    assert r[|r| - 1] == (if a.JustNow? then 'w' else 'o');
    assert r[|r| - 5] == (if a.JustNow? then 't' else if a.HoursAgo? then 'h' else 'd');
    match a
    case JustNow =>
    case HoursAgo(h) =>
      var h' := b.hours;
      assert NatToString(h) == r[..|r| - 5] == NatToString(h');
      NatToStringInjective(h, h');
    case DaysAgo(d) =>
      var d' := b.days;
      assert NatToString(d) == r[..|r| - 5] == NatToString(d');
      NatToStringInjective(d, d');
  }
}
