/**
 * The pure parts of the fun commands: the Discordian date (`Dday`), its rendering,
 * the ordinal suffix, the eightball answer table and colour bands, and the
 * assembly of a Dark Souls 3 message. Random draws and today's date are parameters.
 */
module Fun {
  import opened Text

  const DDAYS: seq<string> := ["Sweetmorn", "Boomtime", "Pungenday", "Prickle-Prickle", "Setting Orange"]
  const DSEASONS: seq<string> := ["Chaos", "Discord", "Confusion", "Bureaucracy", "The Aftermath"]

  /** A Discordian date: season index, day within the season, YOLD year, St. Tib's Day flag. */
  datatype Dday = Dday(season: nat, day: nat, year: int, tibsDay: bool)

  /** The Discordian year of a Gregorian year. */
  function YoldYear(gregorianYear: int): int {
    gregorianYear + 1166
  }

  /** The leap-year test of `Dday::from`: `year % 4 == 2` on the YOLD year, with Rust's remainder. */
  predicate TibsYear(yold: int) {
    TruncRem(yold, 4) == 2
  }

  // ---------------------------------------------------------------------------
  // Dday::from as written
  // ---------------------------------------------------------------------------

  /** The ordinal after the St. Tib's adjustment of `Dday::from`. */
  function AdjustedOrdinal(gregorianYear: int, ordinal: nat): nat {
    if TibsYear(YoldYear(gregorianYear)) && ordinal > 59 then ordinal - 1 else ordinal
  }

  /** What `Dday::from` computes for the date with the given year and `ordinal()`, in closed form. */
  function DdayOf(gregorianYear: int, ordinal: nat): Dday {
    var adjusted := AdjustedOrdinal(gregorianYear, ordinal);
    Dday(adjusted / 73, adjusted % 73, YoldYear(gregorianYear),
         TibsYear(YoldYear(gregorianYear)) && ordinal == 59)
  }

  /** `q` and `r` are the quotient and remainder of `a` by 73. */
  lemma DivMod73(a: nat, q: nat, r: nat)
    requires a == 73 * q + r && r < 73
    ensures a / 73 == q && a % 73 == r
  {
  }

  /** `Dday::from`: the St. Tib's adjustment followed by the subtract-73 loop. */
  method DdayFrom(gregorianYear: int, ordinal: nat) returns (d: Dday)
    ensures d == DdayOf(gregorianYear, ordinal)
  {
    var year := gregorianYear + 1166;
    var dayOfYear := ordinal;
    var season := 0;
    var tibsDay := false;
    if TruncRem(year, 4) == 2 {
      if dayOfYear == 59 {
        tibsDay := true;
      } else if dayOfYear > 59 {
        dayOfYear := dayOfYear - 1;
      }
    }
    ghost var adjusted := dayOfYear;
    assert adjusted == AdjustedOrdinal(gregorianYear, ordinal);
    while dayOfYear >= 73
      invariant 0 <= dayOfYear
      invariant 73 * season + dayOfYear == adjusted
    {
      season := season + 1;
      dayOfYear := dayOfYear - 73;
    }
    DivMod73(adjusted, season, dayOfYear);
    d := Dday(season, dayOfYear, year, tibsDay);
  }

  /**
   * The facts `Dday::from` promises: the YOLD year is the Gregorian year plus 1166,
   * St. Tib's Day is ordinal 59 of a year with `year % 4 == 2`, later ordinals of such
   * a year move back by one, and the day stays below 73. The season is a valid index
   * only while the adjusted ordinal is below 365.
   */
  lemma DdayOfFacts(gregorianYear: int, ordinal: nat)
    ensures DdayOf(gregorianYear, ordinal).year == gregorianYear + 1166
    ensures DdayOf(gregorianYear, ordinal).tibsDay <==> TibsYear(gregorianYear + 1166) && ordinal == 59
    ensures DdayOf(gregorianYear, ordinal).day < 73
    ensures 73 * DdayOf(gregorianYear, ordinal).season + DdayOf(gregorianYear, ordinal).day
            == if TibsYear(gregorianYear + 1166) && ordinal > 59 then ordinal - 1 else ordinal
    ensures DdayOf(gregorianYear, ordinal).season < 5 <==> AdjustedOrdinal(gregorianYear, ordinal) < 365
  {
  }

  // ---------------------------------------------------------------------------
  // Rendering
  // ---------------------------------------------------------------------------

  /** `parse_int_ordinal_suffix` */
  function OrdinalSuffix(num: nat): (s: string)
    ensures s in {"st", "nd", "rd", "th"}
  {
    if num / 10 == 1 then "th"
    else if num % 10 == 1 then "st"
    else if num % 10 == 2 then "nd"
    else if num % 10 == 3 then "rd"
    else "th"
  }

  /** English ordinal suffixes: 11, 12 and 13 (mod 100) take "th", otherwise the last digit decides. */
  function EnglishSuffix(num: nat): string {
    if 11 <= num % 100 <= 13 then "th"
    else if num % 10 == 1 then "st"
    else if num % 10 == 2 then "nd"
    else if num % 10 == 3 then "rd"
    else "th"
  }

  /**
   * Below 100 the suffix is the English one: "th" for the teens, "st", "nd" and "rd"
   * after a last digit 1, 2 and 3, "th" otherwise. (Every day `Display` prints is below 73.)
   */
  lemma OrdinalSuffixIsEnglish(num: nat)
    requires num < 100
    ensures OrdinalSuffix(num) == EnglishSuffix(num)
    ensures 10 <= num <= 19 ==> OrdinalSuffix(num) == "th"
  {
  }

  const TIBS_TEXT: string := "Today is St. Tib's Day in the YOLD "

  /** The weekday index `Display` uses: the day within the season, mod 5. */
  function WeekdayAsWritten(d: Dday): (w: nat)
    ensures w < |DDAYS|
  {
    d.day % 5
  }

  /** A line that starts with a weekday's name is never the St. Tib's Day line. */
  lemma WeekdayLineIsNotTibs(w: nat, rest: string)
    requires w < |DDAYS|
    ensures !(TIBS_TEXT <= "Today is " + DDAYS[w] + rest)
  {
    var s := "Today is " + DDAYS[w] + rest;
    assert s[10] == DDAYS[w][1];
    assert TIBS_TEXT[10] == 't';
  }

  /**
   * `Display for Dday`; indexing `DSEASONS` panics for a season of 5 or more, so a
   * date that is not St. Tib's Day must have a season below 5. The St. Tib's Day line
   * is printed exactly on St. Tib's Day.
   */
  function Display(d: Dday): (s: string)
    requires d.tibsDay || d.season < |DSEASONS|
    ensures d.tibsDay <==> TIBS_TEXT <= s
  {
    if d.tibsDay then TIBS_TEXT + IntToString(d.year)
    else
      var rest := ", the " + ToDecimal(d.day) + OrdinalSuffix(d.day)
                  + " day of " + DSEASONS[d.season] + " in the YOLD " + IntToString(d.year);
      WeekdayLineIsNotTibs(WeekdayAsWritten(d), rest);
      "Today is " + DDAYS[WeekdayAsWritten(d)] + rest
  }

  /** On St. Tib's Day the text depends on the year alone. */
  lemma TibsIgnoresSeasonAndDay(d: Dday, e: Dday)
    requires d.tibsDay && e.tibsDay && d.year == e.year
    ensures Display(d) == Display(e)
    ensures Display(d) == TIBS_TEXT + IntToString(d.year)
  {
  }

  // ---------------------------------------------------------------------------
  // Where Dday::from goes wrong
  // ---------------------------------------------------------------------------

  /**
   * `ordinal()` counts from 1, the split treats it as counting from 0: the last day
   * of a year lands in a sixth season (and `Display` would index out of bounds),
   * the 73rd day of the year is day 0 of Discord, and in a `year % 4 == 2` year
   * February 28th (ordinal 59) is taken for St. Tib's Day while February 29th is not.
   */
  lemma OrdinalOffByOne()
    ensures DdayOf(2019, 365).season == 5 && !DdayOf(2019, 365).tibsDay
    ensures DdayOf(2020, 366).season == 5 && !DdayOf(2020, 366).tibsDay
    ensures DdayOf(2019, 73) == Dday(1, 0, 3185, false)
    ensures DdayOf(2020, 59).tibsDay && !DdayOf(2020, 60).tibsDay
  {
  }

  /** The weekday restarts with each season, although 73 days are not a whole number of weeks. */
  lemma WeekdayRestartsEachSeason()
    ensures WeekdayAsWritten(DdayOf(2019, 1)) == WeekdayAsWritten(DdayOf(2019, 74))
    ensures AdjustedOrdinal(2019, 74) - AdjustedOrdinal(2019, 1) == 73 && 73 % 5 != 0
  {
  }

  /** `year % 4 == 2` makes 2100 a year with a St. Tib's Day; the Gregorian 2100 has no February 29th. */
  lemma CenturyRuleIgnored()
    ensures TibsYear(YoldYear(2100)) && DdayOf(2100, 59).tibsDay
    ensures !IsLeapYear(2100)
  {
  }

  // ---------------------------------------------------------------------------
  // The Discordian calendar as intended
  // ---------------------------------------------------------------------------

  /** The Gregorian leap-year rule (proleptic, as the date library uses). */
  predicate IsLeapYear(y: int) {
    y % 4 == 0 && (y % 100 != 0 || y % 400 == 0)
  }

  function DaysInYear(y: int): nat {
    if IsLeapYear(y) then 366 else 365
  }

  /** The day of the 365-day Discordian year (1-based), with St. Tib's Day taken out. */
  function YearDay(gregorianYear: int, ordinal: nat): nat
    requires 1 <= ordinal
  {
    if IsLeapYear(gregorianYear) && ordinal > 60 then ordinal - 1 else ordinal
  }

  /**
   * The Discordian date of the `ordinal`-th day (from 1) of a Gregorian year: St.
   * Tib's Day is February 29th, and the other days run through five seasons of 73.
   */
  function DiscordianDate(gregorianYear: int, ordinal: nat): Dday
    requires 1 <= ordinal <= DaysInYear(gregorianYear)
  {
    var yd := YearDay(gregorianYear, ordinal);
    Dday((yd - 1) / 73, (yd - 1) % 73 + 1, YoldYear(gregorianYear),
         IsLeapYear(gregorianYear) && ordinal == 60)
  }

  /** `Dday::from` with the 1-based ordinal and the Gregorian leap rule. */
  method DdayFromFixed(gregorianYear: int, ordinal: nat) returns (d: Dday)
    requires 1 <= ordinal <= DaysInYear(gregorianYear)
    ensures d == DiscordianDate(gregorianYear, ordinal)
  {
    var dayOfYear := ordinal;
    var season := 0;
    var tibsDay := false;
    if IsLeapYear(gregorianYear) {
      if dayOfYear == 60 {
        tibsDay := true;
      } else if dayOfYear > 60 {
        dayOfYear := dayOfYear - 1;
      }
    }
    ghost var yd := dayOfYear;
    assert yd == YearDay(gregorianYear, ordinal);
    while dayOfYear > 73
      invariant 1 <= dayOfYear
      invariant 73 * season + dayOfYear == yd
    {
      season := season + 1;
      dayOfYear := dayOfYear - 73;
    }
    DivMod73(yd - 1, season, dayOfYear - 1);
    d := Dday(season, dayOfYear, YoldYear(gregorianYear), tibsDay);
  }

  /**
   * Every day of every year gets a valid season and a day from 1 to 73, St. Tib's
   * Day is exactly February 29th of a leap year, and the other days are numbered
   * consecutively through the 365-day year.
   */
  lemma {:induction false} DiscordianDateFacts(gregorianYear: int, ordinal: nat)
    requires 1 <= ordinal <= DaysInYear(gregorianYear)
    ensures DiscordianDate(gregorianYear, ordinal).season < |DSEASONS|
    ensures 1 <= DiscordianDate(gregorianYear, ordinal).day <= 73
    ensures DiscordianDate(gregorianYear, ordinal).tibsDay <==> IsLeapYear(gregorianYear) && ordinal == 60
    ensures 73 * DiscordianDate(gregorianYear, ordinal).season + DiscordianDate(gregorianYear, ordinal).day
            == YearDay(gregorianYear, ordinal)
    ensures 1 <= YearDay(gregorianYear, ordinal) <= 365
  {
    var yd := YearDay(gregorianYear, ordinal);
    assert yd <= 365;
    var q := (yd - 1) / 73;
    assert q * 73 <= yd - 1;
    assert q < 5;
  }

  /** The weekday of a day of the year: the cycle of five runs on across seasons. */
  function Weekday(d: Dday): (w: nat)
    requires d.day >= 1
    ensures w < |DDAYS|
  {
    (73 * d.season + d.day - 1) % 5
  }

  /**
   * `Display` with the weekday counted through the year; the St. Tib's Day line is
   * printed exactly on St. Tib's Day, and any other day opens with its weekday.
   */
  function DisplayFixed(d: Dday): (s: string)
    requires d.tibsDay || (d.season < |DSEASONS| && d.day >= 1)
    ensures d.tibsDay <==> TIBS_TEXT <= s
    ensures !d.tibsDay ==> "Today is " + DDAYS[Weekday(d)] + ", the " <= s
  {
    if d.tibsDay then TIBS_TEXT + IntToString(d.year)
    else
      var rest := ", the " + ToDecimal(d.day) + OrdinalSuffix(d.day)
                  + " day of " + DSEASONS[d.season] + " in the YOLD " + IntToString(d.year);
      WeekdayLineIsNotTibs(Weekday(d), rest);
      "Today is " + DDAYS[Weekday(d)] + rest
  }

  /** Consecutive days of the year (St. Tib's Day aside) have consecutive weekdays. */
  lemma WeekdayAdvances(gregorianYear: int, ordinal: nat, next: nat)
    requires 1 <= ordinal < next <= DaysInYear(gregorianYear)
    requires YearDay(gregorianYear, next) == YearDay(gregorianYear, ordinal) + 1
    ensures Weekday(DiscordianDate(gregorianYear, next))
            == (Weekday(DiscordianDate(gregorianYear, ordinal)) + 1) % 5
  {
    DiscordianDateFacts(gregorianYear, ordinal);
    DiscordianDateFacts(gregorianYear, next);
  }

  /** The year's first day is Sweetmorn, the 1st of Chaos; its last is the 73rd of The Aftermath. */
  lemma YearBounds(gregorianYear: int)
    ensures DiscordianDate(gregorianYear, 1) == Dday(0, 1, gregorianYear + 1166, false)
    ensures Weekday(DiscordianDate(gregorianYear, 1)) == 0
    ensures DiscordianDate(gregorianYear, DaysInYear(gregorianYear)) == Dday(4, 73, gregorianYear + 1166, false)
  {
  }

  /** `ddate`: today's date rendered, with the corrected conversion. */
  method Ddate(gregorianYear: int, ordinal: nat) returns (text: string)
    requires 1 <= ordinal <= DaysInYear(gregorianYear)
    ensures text == DisplayFixed(DiscordianDate(gregorianYear, ordinal))
    ensures IsLeapYear(gregorianYear) && ordinal == 60 ==> text == TIBS_TEXT + IntToString(gregorianYear + 1166)
  {
    var d := DdayFromFixed(gregorianYear, ordinal);
    DiscordianDateFacts(gregorianYear, ordinal);
    text := DisplayFixed(d);
  }

  // ---------------------------------------------------------------------------
  // eightball
  // ---------------------------------------------------------------------------

  const ANSWERS: seq<string> := [
    "It is certain.", "It is decidedly so.", "Without a doubt.", "Yes- definitely.",
    "You may rely on it.", "As I see it, yes", "Most likely", "Outlook good.", "Yes.",
    "Signs point to yes.", "Reply hazy, try again.", "Ask again later.",
    "Better not tell you now", "Cannot predict now.", "Concentrate and ask again.",
    "Don't count on it.", "My reply is no.", "My sources say no.", "Outlook not so good.",
    "Very doubtful."]

  const GREEN: int := 0x28_A7_45
  const YELLOW: int := 0xFF_C1_07
  const RED: int := 0xDC_35_45

  /** The embed colour for the drawn answer index. */
  function EightballColour(num: nat): (c: int)
    ensures c == GREEN <==> num <= 9
    ensures c == YELLOW <==> 10 <= num <= 14
    ensures c == RED <==> num >= 15
  {
    if num <= 9 then GREEN else if num <= 14 then YELLOW else RED
  }

  /** `gen_range(0, 19)`: the exclusive bound the command draws under. */
  const DRAW_BOUND: nat := 19

  /** The answer and colour of the eightball embed for a draw `num`. */
  datatype Fortune = Fortune(answer: string, colour: int)

  /** The fortune told for a draw below `bound`, the exclusive upper limit of the draw. */
  function Tell(num: nat, bound: nat): (f: Fortune)
    requires num < bound <= |ANSWERS|
    ensures f.answer in ANSWERS[..bound]
    ensures f.colour == GREEN ==> num < 10 && f.answer in ANSWERS[..10]
    ensures f.colour == RED ==> 15 <= num && f.answer in ANSWERS[15..]
  {
    Fortune(ANSWERS[num], EightballColour(num))
  }

  /** With the bound 19 the last answer, "Very doubtful.", is never told. */
  lemma LastAnswerNeverDrawn(num: nat)
    requires num < DRAW_BOUND
    ensures Tell(num, DRAW_BOUND).answer != "Very doubtful."
  {
  }

  /** With the bound `|ANSWERS|` every answer is told for some draw, in its colour band. */
  lemma EveryAnswerDrawable(i: nat)
    requires i < |ANSWERS|
    ensures Tell(i, |ANSWERS|).answer == ANSWERS[i]
    ensures i >= 15 ==> Tell(i, |ANSWERS|).colour == RED
  {
  }

  // ---------------------------------------------------------------------------
  // darksouls3
  // ---------------------------------------------------------------------------

  /** A drawn template and the filler put in place of its "{}". */
  datatype Pick = Pick(template: string, filler: string)

  function Fill(p: Pick): string {
    Replace(p.template, "{}", p.filler)
  }

  /** What goes between the two halves: the conjunction, spaced, or ", " for a comma. */
  function Separator(conjunction: string): string {
    if conjunction != "," then " " + conjunction + " " else conjunction + " "
  }

  /**
   * Where the parts of a two-template message sit: the first filled template opens it,
   * the conjunction follows directly after a comma's position or one space later,
   * a space follows the conjunction, and the second filled template closes it.
   */
  lemma ConjunctionPlacement(conjunction: string, first: Pick, second: Pick)
    ensures var m := Fill(first) + Separator(conjunction) + Fill(second);
      var at := |Fill(first)| + (if conjunction == "," then 0 else 1);
      && m[..|Fill(first)|] == Fill(first)
      && at + |conjunction| < |m|
      && m[at..at + |conjunction|] == conjunction
      && m[at + |conjunction|] == ' '
      && m[at + |conjunction| + 1..] == Fill(second)
      && |m| == |Fill(first)| + |conjunction| + |Fill(second)| + (if conjunction == "," then 1 else 2)
  {
    var m := Fill(first) + Separator(conjunction) + Fill(second);
    var at := |Fill(first)| + (if conjunction == "," then 0 else 1);
    if conjunction == "," {
      assert m == Fill(first) + conjunction + " " + Fill(second);
    } else {
      assert m == Fill(first) + " " + conjunction + " " + Fill(second);
    }
    assert m[at..at + |conjunction|] == conjunction;
    assert m[at + |conjunction| + 1..] == Fill(second);
  }

  /**
   * `darksouls3`: one filled template, or, when a conjunction was drawn, two filled
   * templates built up in a two-step loop with the conjunction between them.
   */
  method Darksouls3(hasConjunction: bool, conjunction: string, first: Pick, second: Pick)
      returns (message: string)
    ensures !hasConjunction ==> message == Fill(first)
    ensures hasConjunction ==> message == Fill(first) + Separator(conjunction) + Fill(second)
  {
    if !hasConjunction {
      return Fill(first);
    }
    message := "";
    for x := 0 to 2
      invariant x == 0 ==> message == ""
      invariant x == 1 ==> message == Fill(first) + Separator(conjunction)
      invariant x == 2 ==> message == Fill(first) + Separator(conjunction) + Fill(second)
    {
      if x == 0 {
        message := message + Fill(first);
        if conjunction != "," {
          message := message + " " + conjunction + " ";
        } else {
          message := message + conjunction + " ";
        }
      } else {
        message := message + Fill(second);
      }
    }
  }
}
