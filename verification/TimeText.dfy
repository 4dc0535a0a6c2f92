/** Times of day as text: how the evaluator reads them and the proxy writes them. */
module TimeText {
  import opened Options
  import opened Text
  import opened Numerals
  import opened PolicyTypes

  /** trim_end_matches with a string pattern */
  function DropSuffix(s: string, p: string): string
    requires p != ""
    decreases |s|
  {
    if |p| <= |s| && s[|s| - |p|..] == p then DropSuffix(s[..|s| - |p|], p) else s
  }

  /** Hours saturate at the u32 maximum; the final addition wraps. */
  function ParseHhmm(value: string): Option<u32> {
    var parts := Split(value, ":");
    if |parts| < 2 then None
    else match (ParseU32(parts[0]), ParseU32(parts[1]))
      case (Some(hours), Some(minutes)) =>
        var scaled := if hours * 60 > U32_MAX then U32_MAX else hours * 60;
        Some((scaled + minutes) % (U32_MAX + 1))
      case _ => None
  }

  function ParseTimeToMinutes(value: string): Option<u32> {
    var trimmed := Trim(value);
    var bare := ParseHhmm(Trim(DropSuffix(trimmed, "UTC")));
    match SplitOnce(trimmed, "T")
    case None => bare
    case Some((date, time)) =>
      if Contains(date, "-") && time != "" && IsDigit(time[0])
      then ParseHhmm(StripEnd(time, One('Z')))
      else bare
  }

  predicate WithinMinutes(now: Option<u32>, start: Option<u32>, end: Option<u32>) {
    match (now, start, end)
    case (Some(n), Some(s), Some(e)) => if s <= e then s <= n <= e else n >= s || n <= e
    case _ => true
  }

  predicate IsWithinTimeWindow(now: string, window: TimeWindow) {
    WithinMinutes(ParseTimeToMinutes(now), ParseTimeToMinutes(window.start), ParseTimeToMinutes(window.end))
  }
}
