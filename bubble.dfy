/** What a message bubble (src/components/MessageBubble.tsx) derives from a
    message: the weather icon shown before a bot message's text, picked by
    keyword from the lower-cased text, and the relative age shown under it.

    The clock is a parameter (the current instant in milliseconds), and so is
    `toLocaleDateString`'s rendering of the message date, which depends on
    the user's locale. */
module Bubble {
  import opened Util
  import opened Api

  const Sun: string := "\U{2600}\U{FE0F}"
  const Cloud: string := "\U{2601}\U{FE0F}"
  const RainCloud: string := "\U{1F327}\U{FE0F}"
  const Snowflake: string := "\U{2744}\U{FE0F}"
  const Thunderstorm: string := "\U{26C8}\U{FE0F}"
  const Fog: string := "\U{1F32B}\U{FE0F}"
  const Wind: string := "\U{1F4A8}"
  const Thermometer: string := "\U{1F321}\U{FE0F}"
  const Ice: string := "\U{1F9CA}"

  // ---------------------------------------------------------------------------
  // The weather icon.

  /** One keyword group: the words that trigger it and the icon it gives. */
  datatype IconRule = IconRule(words: seq<string>, icon: string)

  const RuleCount: nat := 9

  /** The keyword groups, numbered in the order they are tried. */
  function Rule(g: nat): (r: IconRule)
    requires g < RuleCount
    ensures r.icon != ""
  {
    match g
    case 0 => IconRule(["sunny", "clear"], Sun)
    case 1 => IconRule(["cloudy", "overcast"], Cloud)
    case 2 => IconRule(["rain", "drizzle"], RainCloud)
    case 3 => IconRule(["snow", "blizzard"], Snowflake)
    case 4 => IconRule(["storm", "thunder"], Thunderstorm)
    case 5 => IconRule(["fog", "mist"], Fog)
    case 6 => IconRule(["wind"], Wind)
    case 7 => IconRule(["hot", "warm"], Thermometer)
    case _ => IconRule(["cold", "freeze"], Ice)
  }

  /** `s` contains one of `words`. */
  predicate AnyContains(s: string, words: seq<string>) {
    words != [] && (Contains(s, words[0]) || AnyContains(s, words[1..]))
  }

  predicate Matches(s: string, g: nat)
    requires g < RuleCount
  {
    AnyContains(s, Rule(g).words)
  }

  /** Group `g` matches `s` and no group before it does. */
  predicate FirstMatchAt(s: string, g: nat) {
    && g < RuleCount
    && Matches(s, g)
    && forall h :: 0 <= h < g ==> !Matches(s, h)
  }

  /** The table-driven reading of the keyword chain: the icon of the first
      group from `from` on that matches, or none. */
  function FirstRuleIcon(s: string, from: nat): string
    decreases RuleCount - from
  {
    if from >= RuleCount then ""
    else if Matches(s, from) then Rule(from).icon
    else FirstRuleIcon(s, from + 1)
  }

  /** The table gives no icon exactly when no group from `from` on matches,
      and otherwise the icon of the first group that matches. */
  lemma {:induction false} FirstRuleIconSpec(s: string, from: nat)
    requires forall h :: 0 <= h < from && h < RuleCount ==> !Matches(s, h)
    ensures FirstRuleIcon(s, from) == "" <==> forall g :: from <= g < RuleCount ==> !Matches(s, g)
    ensures FirstRuleIcon(s, from) != "" ==>
      exists g :: from <= g && FirstMatchAt(s, g) && FirstRuleIcon(s, from) == Rule(g).icon
    decreases RuleCount - from
  {
    if from < RuleCount && !Matches(s, from) {
      FirstRuleIconSpec(s, from + 1);
    } else if from < RuleCount {
      assert FirstMatchAt(s, from);
    }
  }

  /** `getWeatherIcon`: the keyword chain on the lower-cased text. */
  function WeatherIcon(text: string): (icon: string)
    ensures icon in {"", Sun, Cloud, RainCloud, Snowflake, Thunderstorm, Fog, Wind, Thermometer, Ice}
  {
    var s := ToLower(text);
    if Contains(s, "sunny") || Contains(s, "clear") then Sun
    else if Contains(s, "cloudy") || Contains(s, "overcast") then Cloud
    else if Contains(s, "rain") || Contains(s, "drizzle") then RainCloud
    else if Contains(s, "snow") || Contains(s, "blizzard") then Snowflake
    else if Contains(s, "storm") || Contains(s, "thunder") then Thunderstorm
    else if Contains(s, "fog") || Contains(s, "mist") then Fog
    else if Contains(s, "wind") then Wind
    else if Contains(s, "hot") || Contains(s, "warm") then Thermometer
    else if Contains(s, "cold") || Contains(s, "freeze") then Ice
    else ""
  }

  /** The chain is the table read in order: the first group, in source
      order, one of whose words occurs in the lower-cased text gives the
      icon, and no match gives none. */
  lemma WeatherIconIsFirstMatch(text: string)
    ensures WeatherIcon(text) == FirstRuleIcon(ToLower(text), 0)
    ensures WeatherIcon(text) == "" <==> forall g :: 0 <= g < RuleCount ==> !Matches(ToLower(text), g)
    ensures WeatherIcon(text) != "" ==>
      exists g :: FirstMatchAt(ToLower(text), g) && WeatherIcon(text) == Rule(g).icon
  {
    var s := ToLower(text);
    EarlyGroups(s);
    LateGroups(s);
    FirstRuleIconSpec(s, 0);
  }

  /** The first five groups of the table, one step each. */
  lemma EarlyGroups(s: string)
    ensures FirstRuleIcon(s, 0) ==
      if Contains(s, "sunny") || Contains(s, "clear") then Sun
      else if Contains(s, "cloudy") || Contains(s, "overcast") then Cloud
      else if Contains(s, "rain") || Contains(s, "drizzle") then RainCloud
      else if Contains(s, "snow") || Contains(s, "blizzard") then Snowflake
      else if Contains(s, "storm") || Contains(s, "thunder") then Thunderstorm
      else FirstRuleIcon(s, 5)
  {
    assert FirstRuleIcon(s, 4) == (if Contains(s, "storm") || Contains(s, "thunder") then Thunderstorm else FirstRuleIcon(s, 5)) by { AnyContainsPair(s, "storm", "thunder"); }
    assert FirstRuleIcon(s, 3) == (if Contains(s, "snow") || Contains(s, "blizzard") then Snowflake else FirstRuleIcon(s, 4)) by { AnyContainsPair(s, "snow", "blizzard"); }
    assert FirstRuleIcon(s, 2) == (if Contains(s, "rain") || Contains(s, "drizzle") then RainCloud else FirstRuleIcon(s, 3)) by { AnyContainsPair(s, "rain", "drizzle"); }
    assert FirstRuleIcon(s, 1) == (if Contains(s, "cloudy") || Contains(s, "overcast") then Cloud else FirstRuleIcon(s, 2)) by { AnyContainsPair(s, "cloudy", "overcast"); }
    assert FirstRuleIcon(s, 0) == (if Contains(s, "sunny") || Contains(s, "clear") then Sun else FirstRuleIcon(s, 1)) by { AnyContainsPair(s, "sunny", "clear"); }
  }

  /** The last four groups of the table, one step each. */
  lemma LateGroups(s: string)
    ensures FirstRuleIcon(s, 5) ==
      if Contains(s, "fog") || Contains(s, "mist") then Fog
      else if Contains(s, "wind") then Wind
      else if Contains(s, "hot") || Contains(s, "warm") then Thermometer
      else if Contains(s, "cold") || Contains(s, "freeze") then Ice
      else ""
  {
    assert FirstRuleIcon(s, 8) == (if Contains(s, "cold") || Contains(s, "freeze") then Ice else "") by { AnyContainsPair(s, "cold", "freeze"); }
    assert FirstRuleIcon(s, 7) == (if Contains(s, "hot") || Contains(s, "warm") then Thermometer else FirstRuleIcon(s, 8)) by { AnyContainsPair(s, "hot", "warm"); }
    assert FirstRuleIcon(s, 6) == (if Contains(s, "wind") then Wind else FirstRuleIcon(s, 7)) by { AnyContainsOne(s, "wind"); }
    assert FirstRuleIcon(s, 5) == (if Contains(s, "fog") || Contains(s, "mist") then Fog else FirstRuleIcon(s, 6)) by { AnyContainsPair(s, "fog", "mist"); }
  }

  lemma AnyContainsPair(s: string, a: string, b: string)
    ensures AnyContains(s, [a, b]) <==> Contains(s, a) || Contains(s, b)
  {
    assert [a, b][1..] == [b];
    AnyContainsOne(s, b);
  }

  lemma AnyContainsOne(s: string, a: string)
    ensures AnyContains(s, [a]) <==> Contains(s, a)
  {
    assert [a][1..] == [];
  }

  /** The match ignores case: upper-case letters in the text make no
      difference. */
  lemma WeatherIconIgnoresCase(text: string)
    ensures WeatherIcon(ToLower(text)) == WeatherIcon(text)
  {
    ToLowerIdempotent(text);
  }

  /** A keyword matches anywhere, even inside another word: "unclear" gets
      the sun. */
  lemma UnclearIsSunny()
    ensures WeatherIcon("Unclear") == Sun
  {
    assert ToLower("Unclear") == "unclear";
    assert WindowAt("unclear", "clear", 2);
    ContainsAt("unclear", "clear", 2);
  }

  /** Earlier groups win: "snowstorm" holds both `snow` and `storm` and gets
      the snowflake. The word is passed in and pinned by the precondition,
      so the proof reasons about `s` rather than unfolding the literal at
      every step, which keeps it cheap. */
  lemma SnowstormIsSnow(s: string)
    requires s == "snowstorm"
    ensures WeatherIcon(s) == Snowflake
  {
    LowerCaseFixed(s);
    SnowBeforeStorm(s);
  }

  /** Matching is by substring: "rainbow" counts as rain. As above, the
      word is a parameter pinned by the precondition to keep the proof
      cheap. */
  lemma RainbowIsRain(s: string)
    requires s == "rainbow"
    ensures WeatherIcon(s) == RainCloud
  {
    LowerCaseFixed(s);
    RainBeforeLaterGroups(s);
  }

  /** The icon is that of the first matching group. */
  lemma IconOfFirstMatch(text: string, g: nat)
    requires FirstMatchAt(ToLower(text), g)
    ensures WeatherIcon(text) == Rule(g).icon
  {
    WeatherIconIsFirstMatch(text);
    var h: nat :| FirstMatchAt(ToLower(text), h) && WeatherIcon(text) == Rule(h).icon;
    assert h == g;
  }

  lemma LowerCaseFixed(s: string)
    requires forall k :: 0 <= k < |s| ==> !('A' <= s[k] <= 'Z')
    ensures ToLower(s) == s
  {
  }

  lemma SnowBeforeStorm(s: string)
    requires ToLower(s) == s
    requires forall k :: 0 <= k < |s| ==> s[k] !in "uci"
    requires WindowAt(s, "snow", 0)
    ensures WeatherIcon(s) == Snowflake
  {
    MissingCharNotContained(s, "sunny", 'u');
    MissingCharNotContained(s, "clear", 'c');
    MissingCharNotContained(s, "cloudy", 'c');
    MissingCharNotContained(s, "overcast", 'c');
    MissingCharNotContained(s, "rain", 'i');
    MissingCharNotContained(s, "drizzle", 'i');
    ContainsAt(s, "snow", 0);
  }

  lemma RainBeforeLaterGroups(s: string)
    requires ToLower(s) == s
    requires forall k :: 0 <= k < |s| ==> s[k] !in "uc"
    requires WindowAt(s, "rain", 0)
    ensures WeatherIcon(s) == RainCloud
  {
    MissingCharNotContained(s, "sunny", 'u');
    MissingCharNotContained(s, "clear", 'c');
    MissingCharNotContained(s, "cloudy", 'c');
    MissingCharNotContained(s, "overcast", 'c');
    ContainsAt(s, "rain", 0);
  }

  /** The bubble shows an icon only for bot messages. */
  function BubbleIcon(sender: Sender, text: string): (r: string)
    ensures sender == User ==> r == ""
    ensures sender == Bot ==> r == WeatherIcon(text)
  {
    if sender == Bot then WeatherIcon(text) else ""
  }

  // ---------------------------------------------------------------------------
  // The relative age.

  /** Whole minutes from `thenMs` to `nowMs`, rounded down (towards minus
      infinity, as `Math.floor` does, also for a date in the future). */
  function MinutesSince(nowMs: int, thenMs: int): (m: int)
    ensures 60000 * m <= nowMs - thenMs < 60000 * (m + 1)
  {
    (nowMs - thenMs) / 60000
  }

  /** The four ways an age is shown. */
  datatype Age = JustNow | MinutesAgo(minutes: nat) | HoursAgo(hours: nat) | Older

  /** The bucket for an age of `m` whole minutes. */
  function AgeOf(m: int): (a: Age)
    ensures a == JustNow <==> m < 1
    ensures a.MinutesAgo? <==> 1 <= m < 60
    ensures a.MinutesAgo? ==> a.minutes == m
    ensures a.HoursAgo? <==> 60 <= m < 1440
    ensures a.HoursAgo? ==> 1 <= a.hours <= 23 && 60 * a.hours <= m < 60 * (a.hours + 1)
    ensures a == Older <==> 1440 <= m
  {
    if m < 1 then JustNow
    else if m < 60 then MinutesAgo(m)
    else if m < 1440 then HoursAgo(m / 60)
    else Older
  }

  /** The label of an age: the count read back from the digits before
      "m ago" or "h ago" is the count of the age. */
  function RenderAge(a: Age, localeDate: string): (r: string)
    ensures a == JustNow ==> r == "just now"
    ensures a == Older ==> r == localeDate
    ensures a.MinutesAgo? ==>
      |r| > 5 && r[|r| - 5..] == "m ago" && IsDigits(r[..|r| - 5]) && DecimalValue(r[..|r| - 5]) == a.minutes
    ensures a.HoursAgo? ==>
      |r| > 5 && r[|r| - 5..] == "h ago" && IsDigits(r[..|r| - 5]) && DecimalValue(r[..|r| - 5]) == a.hours
  {
    match a
    case JustNow => "just now"
    case MinutesAgo(m) =>
      NatToStringRoundTrip(m);
      var r := NatToString(m) + "m ago";
      assert r[..|r| - 5] == NatToString(m) && r[|r| - 5..] == "m ago";
      r
    case HoursAgo(h) =>
      NatToStringRoundTrip(h);
      var r := NatToString(h) + "h ago";
      assert r[..|r| - 5] == NatToString(h) && r[|r| - 5..] == "h ago";
      r
    case Older => localeDate
  }

  /** `formatRelativeTime`: under a minute is "just now", under an hour the
      whole minutes, under a day the whole hours, and from a day on the
      locale's date. */
  function FormatRelativeTime(nowMs: int, thenMs: int, localeDate: string): (r: string)
    ensures nowMs - thenMs < 60000 ==> r == "just now"
    ensures 60000 <= nowMs - thenMs < 3600000 ==>
      exists m :: 1 <= m < 60 && 60000 * m <= nowMs - thenMs < 60000 * (m + 1) && r == NatToString(m) + "m ago"
    ensures 3600000 <= nowMs - thenMs < 86400000 ==>
      exists h :: 1 <= h < 24 && 3600000 * h <= nowMs - thenMs < 3600000 * (h + 1) && r == NatToString(h) + "h ago"
    ensures 86400000 <= nowMs - thenMs ==> r == localeDate
  {
    RenderAge(AgeOf(MinutesSince(nowMs, thenMs)), localeDate)
  }

  /** The relative label reads back: the digits before "m ago" or "h ago"
      are the whole minutes or hours elapsed. */
  lemma RelativeTimeReadBack(nowMs: int, thenMs: int, localeDate: string)
    requires 60000 <= nowMs - thenMs < 86400000
    ensures var r := FormatRelativeTime(nowMs, thenMs, localeDate);
      var digits := r[..|r| - 5];
      && |r| > 5
      && IsDigits(digits)
      && DecimalValue(digits) == (if nowMs - thenMs < 3600000 then (nowMs - thenMs) / 60000 else (nowMs - thenMs) / 3600000)
  {
    var m := MinutesSince(nowMs, thenMs);
    var r := FormatRelativeTime(nowMs, thenMs, localeDate);
    var n := if m < 60 then m else m / 60;
    assert r == NatToString(n) + (if m < 60 then "m ago" else "h ago");
    assert r[..|r| - 5] == NatToString(n);
    NatToStringRoundTrip(n);
    if m >= 60 {
      assert (nowMs - thenMs) / 3600000 == m / 60;
    }
  }

  /** The shown age never goes back as time passes: a later clock reading
      gives the same bucket or a later one, and within a bucket a count at
      least as large. */
  lemma AgeMonotone(m1: int, m2: int)
    requires m1 <= m2
    ensures Rank(AgeOf(m1)) <= Rank(AgeOf(m2))
    ensures AgeOf(m1).MinutesAgo? && AgeOf(m2).MinutesAgo? ==> AgeOf(m1).minutes <= AgeOf(m2).minutes
    ensures AgeOf(m1).HoursAgo? && AgeOf(m2).HoursAgo? ==> AgeOf(m1).hours <= AgeOf(m2).hours
  {
  }

  function Rank(a: Age): nat {
    match a
    case JustNow => 0
    case MinutesAgo(_) => 1
    case HoursAgo(_) => 2
    case Older => 3
  }
}
