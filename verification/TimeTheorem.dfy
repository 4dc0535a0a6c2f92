/** Times of day survive being written and read back, and a window is a cyclic interval. */
module TimeTheorem {
  import opened Options
  import opened Text
  import opened Numerals
  import opened PolicyTypes
  import opened TimeText
  import opened Evaluator

  // ----- Padded numerals -----

  /** `{:02}` */
  function Pad2(n: nat): string {
    if n < 10 then "0" + Dec(n) else Dec(n)
  }

  lemma Pad2Parses(n: u32)
    ensures ParseU32(Pad2(n)) == Some(n) && AllDigits(Pad2(n)) && Pad2(n) != ""
  {
    DecParses(n);
    if n < 10 {
      var s := Pad2(n);
      assert s[..1] == "0" && s[..1][..0] == "";
      assert DigitsValue(s) == 10 * DigitsValue(s[..1]) + (s[1] - '0') as int;
    }
  }

  // ----- Writing and reading back -----

  /** The proxy's clock reading. */
  function UtcHhmm(seconds: nat): string {
    Pad2(seconds / 3600 % 24) + ":" + Pad2(seconds / 60 % 60)
  }

  predicate Timelike(s: string) {
    forall i :: 0 <= i < |s| ==> IsDigit(s[i]) || s[i] == ':'
  }

  lemma {:induction false} SplitColon(a: string, b: string)
    requires Absent(':', a)
    ensures Split(a + ":" + b, ":") == [a] + Split(b, ":")
  {
    if a == "" {
      assert a + ":" + b == ":" + b && (":" + b)[1..] == b;
    } else {
      assert (a + ":" + b)[1..] == a[1..] + ":" + b && (a + ":" + b)[0] == a[0];
      SplitColon(a[1..], b);
      assert [a[0]] + a[1..] == a;
    }
  }

  lemma {:induction false} SplitNoColon(a: string)
    requires Absent(':', a)
    ensures Split(a, ":") == [a]
  {
    if a != "" {
      SplitNoColon(a[1..]);
      assert [a[0]] + a[1..] == a;
    }
  }

  lemma ColonParts(h: string, m: string, rest: string)
    requires Absent(':', h) && Absent(':', m) && (rest == "" || rest[0] == ':')
    ensures var parts := Split(h + ":" + m + rest, ":"); |parts| >= 2 && parts[0] == h && parts[1] == m
  {
    var b := m + rest;
    assert h + ":" + m + rest == h + ":" + b;
    SplitColon(h, b);
    if rest == "" {
      assert b == m;
      SplitNoColon(m);
    } else {
      assert b == m + ":" + rest[1..];
      SplitColon(m, rest[1..]);
    }
  }

  /** Hours, minutes and whatever may follow a second colon. */
  lemma HhmmParses(h: string, m: string, hours: u32, minutes: u32, rest: string)
    requires ParseU32(h) == Some(hours) && ParseU32(m) == Some(minutes) && hours * 60 + minutes <= U32_MAX
    requires Absent(':', h) && Absent(':', m) && (rest == "" || rest[0] == ':')
    ensures ParseHhmm(h + ":" + m + rest) == Some(hours * 60 + minutes)
  {
    ColonParts(h, m, rest);
    PairParses(h + ":" + m + rest, hours, minutes);
  }

  lemma PairParses(s: string, hours: u32, minutes: u32)
    requires var parts := Split(s, ":"); |parts| >= 2 && ParseU32(parts[0]) == Some(hours) && ParseU32(parts[1]) == Some(minutes)
    requires hours * 60 + minutes <= U32_MAX
    ensures ParseHhmm(s) == Some(hours * 60 + minutes)
  {
    HhmmIs(s, hours, minutes);
  }

  /** The sum as the source computes it, saturating and wrapping. */
  function Minutes(hours: u32, minutes: u32): u32 {
    ((if hours * 60 > U32_MAX then U32_MAX else hours * 60) + minutes) % (U32_MAX + 1)
  }

  lemma HhmmIs(s: string, hours: u32, minutes: u32)
    requires var parts := Split(s, ":"); |parts| >= 2 && ParseU32(parts[0]) == Some(hours) && ParseU32(parts[1]) == Some(minutes)
    ensures ParseHhmm(s) == Some(Minutes(hours, minutes))
  {
  }

  lemma MinutesAre(hours: u32, minutes: u32)
    ensures var scaled, r := hours * 60, Minutes(hours, minutes);
            && (scaled + minutes <= 0xFFFF_FFFF ==> r == scaled + minutes)
            && (scaled <= 0xFFFF_FFFF < scaled + minutes ==> r == scaled + minutes - 0x1_0000_0000)
            && (scaled > 0xFFFF_FFFF ==> r == if minutes == 0 then 0xFFFF_FFFF else minutes - 1)
  {
  }

  lemma HhmmUnread(s: string)
    requires var parts := Split(s, ":"); |parts| >= 2 && (ParseU32(parts[0]).None? || ParseU32(parts[1]).None?)
    ensures ParseHhmm(s) == None
  {
  }

  /** Any hours and minutes: a product that does not fit counts as the largest
      number, and a sum that does not fit starts again from zero. */
  lemma HhmmExactly(h: string, m: string, rest: string)
    requires Absent(':', h) && Absent(':', m) && (rest == "" || rest[0] == ':')
    ensures ParseHhmm(h) == None
    ensures var hours, minutes, r := ParseU32(h), ParseU32(m), ParseHhmm(h + ":" + m + rest);
            && (r.Some? <==> hours.Some? && minutes.Some?)
            && (r.Some? ==>
                  var scaled := hours.value * 60;
                  && (scaled + minutes.value <= 0xFFFF_FFFF ==> r.value == scaled + minutes.value)
                  && (scaled <= 0xFFFF_FFFF < scaled + minutes.value ==> r.value == scaled + minutes.value - 0x1_0000_0000)
                  && (scaled > 0xFFFF_FFFF ==> r.value == if minutes.value == 0 then 0xFFFF_FFFF else minutes.value - 1))
  {
    ColonParts(h, m, rest);
    SplitNoColon(h);
    var hours, minutes := ParseU32(h), ParseU32(m);
    if hours.Some? && minutes.Some? {
      HhmmIs(h + ":" + m + rest, hours.value, minutes.value);
      MinutesAre(hours.value, minutes.value);
    } else {
      HhmmUnread(h + ":" + m + rest);
    }
  }

  /** A suffix as often as it is repeated. */
  function Repeated(p: string, k: nat): string {
    if k == 0 then "" else Repeated(p, k - 1) + p
  }

  lemma {:induction false} SuffixesDropped(core: string, k: nat)
    requires |core| < 3 || core[|core| - 3..] != "UTC"
    ensures DropSuffix(core + Repeated("UTC", k), "UTC") == core
  {
    if k == 0 {
      assert core + "" == core;
    } else {
      var s := core + Repeated("UTC", k - 1);
      assert core + Repeated("UTC", k) == s + "UTC" && (s + "UTC")[..|s|] == s && (s + "UTC")[|s|..] == "UTC";
      SuffixesDropped(core, k - 1);
    }
  }

  lemma UtcsDropped(core: string, gap: string, k: nat)
    requires Bare(core, Space) && Space.All(gap)
    requires |core + gap| < 3 || (core + gap)[|core + gap| - 3..] != "UTC"
    ensures Trim(DropSuffix(core + gap + Repeated("UTC", k), "UTC")) == core
  {
    SuffixesDropped(core + gap, k);
    GapTrimmed(core, gap);
  }

  lemma GapTrimmed(core: string, gap: string)
    requires Bare(core, Space) && Space.All(gap)
    ensures Trim(core + gap) == core
  {
    StripUnique("", core, gap, Space);
    assert "" + core + gap == core + gap;
  }

  /** Without a date, a `T` and a digit, only blanks and closing `UTC`s are dropped. */
  lemma UndatedTime(core: string, gap: string, k: nat)
    requires Bare(core, Space) && Space.All(gap) && Bare(core + gap + Repeated("UTC", k), Space)
    requires |core + gap| < 3 || (core + gap)[|core + gap| - 3..] != "UTC"
    requires var s := core + gap + Repeated("UTC", k);
             forall i: nat :: i < |s| ==> !Dated(s, i)
    ensures ParseTimeToMinutes(core + gap + Repeated("UTC", k)) == ParseHhmm(core)
  {
    var s := core + gap + Repeated("UTC", k);
    StripBare(s, Space);
    UtcsDropped(core, gap, k);
    UndatedIsBare(s);
  }

  predicate Dated(s: string, i: nat)
    requires i < |s|
  {
    s[i] == 'T' && Absent('T', s[..i]) && Contains(s[..i], "-") && i + 1 < |s| && IsDigit(s[i + 1])
  }

  lemma UndatedIsBare(s: string)
    requires Trim(s) == s && forall i: nat :: i < |s| ==> !Dated(s, i)
    ensures ParseTimeToMinutes(s) == ParseHhmm(Trim(DropSuffix(s, "UTC")))
  {
    FirstTee(s);
    var i := Find(s, "T");
    if i.Some? { assert !Dated(s, i.value); }
  }

  lemma FirstTee(s: string)
    ensures Find(s, "T").Some? ==> var i := Find(s, "T").value;
              i < |s| && s[i] == 'T' && Absent('T', s[..i]) && SplitOnce(s, "T") == Some((s[..i], s[i + 1..])) && (i + 1 < |s| ==> s[i + 1..][0] == s[i + 1])
  {
    FindMeets(s, "T");
    if Find(s, "T").Some? {
      var i := Find(s, "T").value;
      assert s[i..][0] == 'T';
      forall j | 0 <= j < i ensures s[j] != 'T' { assert !At(s, "T", j); assert s[j..][0] == s[j]; }
    }
  }

  /** A time or a bound that cannot be read puts every time inside. */
  lemma UnreadableIsInside(now: string, window: TimeWindow)
    requires ParseTimeToMinutes(now).None? || ParseTimeToMinutes(window.start).None? || ParseTimeToMinutes(window.end).None?
    ensures IsWithinTimeWindow(now, window)
  {
  }

  lemma ClockParts(seconds: nat)
    ensures var h, m := seconds / 3600 % 24, seconds / 60 % 60; h * 60 + m == seconds / 60 % 1440
  {
    var q := seconds / 60;
    assert q / 60 == seconds / 3600;
    assert q == 1440 * (q / 60 / 24) + 60 * (q / 60 % 24) + q % 60;
  }

  lemma NoDate(s: string)
    requires Timelike(s)
    ensures SplitOnce(s, "T").None? && SplitOnce(s + " UTC", "T") == Some((s + " U", "C"))
    ensures !Contains(s + " U", "-")
  {
    NotInside(s, "T");
    NotInside(s + " U", "-");
    TeeAfter(s);
  }

  lemma NotInside(s: string, p: string)
    requires p != "" && Absent(p[0], s)
    ensures Find(s, p).None?
  {
    FindSkip(s, "", p);
    assert s + "" == s;
  }

  lemma TeeAfter(s: string)
    requires Absent('T', s)
    ensures SplitOnce(s + " UTC", "T") == Some((s + " U", "C"))
  {
    var u := s + " U";
    FindSkip(u, "TC", "T");
    assert s + " UTC" == u + "TC";
    assert (u + "TC")[..|u|] == u && (u + "TC")[|u| + 1..] == "C";
  }

  /** A text of digits and colons is read as it stands. */
  lemma BareTime(s: string)
    requires Timelike(s) && s != ""
    ensures ParseTimeToMinutes(s) == ParseHhmm(s)
  {
    NoDate(s);
    StripBare(s, Space);
    NothingDropped(s);
  }

  lemma NothingDropped(s: string)
    requires Timelike(s)
    ensures DropSuffix(s, "UTC") == s
  {
    if |s| >= 3 { assert s[|s| - 3..][0] == s[|s| - 3]; }
  }

  lemma UtcDropped(s: string)
    requires Timelike(s) && s != ""
    ensures Trim(DropSuffix(s + " UTC", "UTC")) == s
  {
    var spaced, full := s + " ", s + " UTC";
    assert |full| - 3 == |spaced|;
    assert full[|spaced|..] == "UTC" && full[..|spaced|] == spaced;
    assert DropSuffix(full, "UTC") == DropSuffix(spaced, "UTC");
    assert DropSuffix(spaced, "UTC") == spaced by {
      if |spaced| >= 3 { assert spaced[|spaced| - 3..][2] == ' '; }
    }
    StripUnique("", s, " ", Space);
    assert "" + s + " " == spaced;
  }

  lemma SpacedTime(s: string)
    requires Timelike(s) && s != ""
    ensures ParseTimeToMinutes(s + " UTC") == ParseHhmm(s)
  {
    NoDate(s);
    StripBare(s + " UTC", Space);
    UtcDropped(s);
  }

  lemma ClockText(seconds: nat, rest: string)
    requires rest == "" || rest[0] == ':'
    ensures Timelike(UtcHhmm(seconds)) && UtcHhmm(seconds) != "" && IsDigit(UtcHhmm(seconds)[0])
    ensures ParseHhmm(UtcHhmm(seconds) + rest) == Some(seconds / 60 % 1440)
  {
    var h, m := seconds / 3600 % 24, seconds / 60 % 60;
    ClockParts(seconds);
    PairText(h, m, rest);
  }

  lemma PairText(h: nat, m: nat, rest: string)
    requires h < 24 && m < 60 && (rest == "" || rest[0] == ':')
    ensures var s := Pad2(h) + ":" + Pad2(m);
            Timelike(s) && s != "" && IsDigit(s[0]) && ParseHhmm(s + rest) == Some(h * 60 + m)
  {
    Pad2Parses(h); Pad2Parses(m);
    NoColon(Pad2(h)); NoColon(Pad2(m));
    HhmmParses(Pad2(h), Pad2(m), h, m, rest);
    assert (Pad2(h) + ":" + Pad2(m))[0] == Pad2(h)[0];
  }

  /** Reading back what the proxy writes, bare or followed by " UTC". */
  lemma ClockReadsBack(seconds: nat)
    ensures ParseTimeToMinutes(UtcHhmm(seconds)) == Some(seconds / 60 % 1440)
    ensures ParseTimeToMinutes(UtcHhmm(seconds) + " UTC") == Some(seconds / 60 % 1440)
  {
    ClockText(seconds, "");
    assert UtcHhmm(seconds) + "" == UtcHhmm(seconds);
    BareTime(UtcHhmm(seconds));
    SpacedTime(UtcHhmm(seconds));
  }

  lemma DatedTime(date: string, time: string)
    requires Absent('T', date) && Contains(date, "-") && time != "" && IsDigit(time[0])
    requires Bare(date + "T" + time, Space)
    ensures ParseTimeToMinutes(date + "T" + time) == ParseHhmm(StripEnd(time, One('Z')))
  {
    var s := date + "T" + time;
    StripBare(s, Space);
    FindSkip(date, "T" + time, "T");
    assert s == date + ("T" + time);
    assert s[..|date|] == date && s[|date| + 1..] == time;
  }

  lemma TimestampTrims(date: string, s: string, rest: string) returns (tail: string)
    requires date != "" && !IsSpace(date[0])
    ensures Trim(date + "T" + s + ":" + rest) == date + "T" + (s + ":" + tail)
    ensures Bare(date + "T" + (s + ":" + tail), Space)
  {
    var u := date + "T" + s + ":";
    TrimKeepsPrefix(u, rest);
    StripIdempotent(u + rest, Space);
    tail := Trim(u + rest)[|u|..];
    assert Trim(u + rest) == u + tail;
    assert u + tail == date + "T" + (s + ":" + tail);
  }

  /** Only closing Zs after the minutes are dropped. */
  lemma ZsDropped(s: string, tail: string) returns (kept: string)
    ensures StripEnd(s + ":" + tail, One('Z')) == s + (":" + kept)
  {
    StripEndPrefix(s + ":", tail, One('Z'));
    var cut := StripEnd(s + ":" + tail, One('Z'));
    kept := cut[|s| + 1..];
    assert cut == (s + ":") + kept;
  }

  /** Reading back a date, a `T` and the clock, whatever follows the minutes: the
      seconds, a closing Z, or an offset, which the source ignores. */
  lemma TimestampReadsBack(date: string, seconds: nat, rest: string)
    requires date != "" && !IsSpace(date[0]) && Absent('T', date) && Contains(date, "-")
    ensures ParseTimeToMinutes(date + "T" + UtcHhmm(seconds) + ":" + rest) == Some(seconds / 60 % 1440)
  {
    var s := UtcHhmm(seconds);
    ClockText(seconds, "");
    var tail := TimestampTrims(date, s, rest);
    var time := s + ":" + tail;
    assert time[0] == s[0];
    DatedTime(date, time);
    var kept := ZsDropped(s, tail);
    ClockText(seconds, ":" + kept);
    SameTrimmedTime(date + "T" + s + ":" + rest);
  }

  lemma SameTrimmedTime(s: string)
    ensures ParseTimeToMinutes(Trim(s)) == ParseTimeToMinutes(s)
  {
    StripIdempotent(s, Space);
  }

  lemma {:induction false} StripEndPrefix(u: string, w: string, k: Class)
    requires u != "" && !k.Has(u[|u| - 1])
    ensures u <= StripEnd(u + w, k)
  {
    if w == "" {
      assert u + w == u;
    } else {
      assert (u + w)[..|u + w| - 1] == u + w[..|w| - 1];
      StripEndPrefix(u, w[..|w| - 1], k);
    }
  }

  // ----- Windows -----

  lemma Modulo(a: int, m: int)
    requires -m < a < m
    ensures a % m == if a >= 0 then a else a + m
  {
    if a < 0 { Remainder(a, m); }
  }

  lemma Remainder(a: int, m: int)
    requires -m < a < 0
    ensures a % m == a + m
  {
    assert a == m * (a / m) + a % m;
  }

  lemma CyclicMinutes(n: u32, s: u32, e: u32, m: nat)
    requires n < m && s < m && e < m
    ensures WithinMinutes(Some(n), Some(s), Some(e)) <==> (n - s) % m <= (e - s) % m
  {
    Modulo(n - s, m); Modulo(e - s, m);
  }

  /** The window holds exactly the minutes met when walking forward from its
      start up to its end, around a day of any length that has room for the three:
      1440 minutes for times of day. */
  lemma WindowIsCyclic(now: string, window: TimeWindow, n: u32, s: u32, e: u32, day: nat)
    requires ParseTimeToMinutes(now) == Some(n) && ParseTimeToMinutes(window.start) == Some(s) && ParseTimeToMinutes(window.end) == Some(e)
    requires n < day && s < day && e < day
    ensures IsWithinTimeWindow(now, window) <==> (n - s) % day <= (e - s) % day
  {
    CyclicMinutes(n, s, e, day);
  }

  /** Some minute lies outside the window. */
  predicate Excludes(window: TimeWindow) {
    match (ParseTimeToMinutes(window.start), ParseTimeToMinutes(window.end))
    case (Some(s), Some(e)) => if s <= e then s > 0 || e < U32_MAX else e + 1 < s
    case _ => false
  }

  /** A time of day that reads as minute n. */
  function MinuteText(n: nat): string {
    "0:" + Dec(n)
  }

  lemma MinuteTextParses(n: u32)
    ensures ParseTimeToMinutes(MinuteText(n)) == Some(n)
  {
    DecParses(n); DecParses(0);
    NoColon(Dec(n)); NoColon(Dec(0));
    HhmmParses(Dec(0), Dec(n), 0, n, "");
    MinuteTextShape(n);
    BareTime(MinuteText(n));
  }

  lemma NoColon(s: string)
    requires AllDigits(s)
    ensures Absent(':', s)
  {
  }

  lemma MinuteTextShape(n: nat)
    ensures Timelike(MinuteText(n)) && MinuteText(n) != ""
    ensures Dec(0) + ":" + Dec(n) + "" == MinuteText(n)
  {
    assert Dec(0) == "0";
  }

  /** A rule decides alike at all times exactly when it has no window, or being
      outside makes no difference, or the window leaves no time out. */
  lemma WindowMattersExactly(rule: RuleSpec)
    ensures (forall now: Option<string> :: EvaluateTimeWindow(rule, now) == rule.action)
        <==> rule.timeWindow.None? || OrElse(rule.outsideWindowAction, Block) == rule.action || !Excludes(rule.timeWindow.value)
  {
    if rule.timeWindow.Some? && Excludes(rule.timeWindow.value) {
      var s := ParseTimeToMinutes(rule.timeWindow.value.start).value;
      var e := ParseTimeToMinutes(rule.timeWindow.value.end).value;
      var n := if s > e then e + 1 else if s > 0 then 0 else U32_MAX;
      MinuteTextParses(n);
      assert EvaluateTimeWindow(rule, Some(MinuteText(n))) == OrElse(rule.outsideWindowAction, Block);
    }
  }
}
