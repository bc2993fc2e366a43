/**
 * Two pieces of the owner commands: the uptime line of `info` (time since the
 * recorded boot, split into days, hours, minutes and seconds) and the argument
 * parsing of `set` (status, activity type, optional stream URL, activity name).
 */
module Owner {
  import opened Wrappers
  import opened Text
  import Bot

  // ---------------------------------------------------------------------------
  // Uptime
  // ---------------------------------------------------------------------------

  /** Days, hours, minutes and seconds of a duration. */
  datatype Dhms = Dhms(days: int, hours: int, minutes: int, seconds: int)

  /** Minutes of minutes are hours, also for Rust's truncating division. */
  lemma TruncDivMinutesToHours(a: int)
    ensures TruncDiv(TruncDiv(a, 60), 60) == TruncDiv(a, 3600)
  {
    var x := if a >= 0 then a else -a;
    var q := x / 60;
    assert x == 60 * q + x % 60;
    assert q == 60 * (q / 60) + q % 60;
    assert x == 3600 * (q / 60) + (60 * (q % 60) + x % 60);
  }

  /** Hours of days are hours of total, also for Rust's truncating division. */
  lemma TruncDivHoursToDays(a: int)
    ensures TruncDiv(TruncDiv(a, 3600), 24) == TruncDiv(a, 86400)
  {
    var x := if a >= 0 then a else -a;
    var q := x / 3600;
    assert x == 3600 * q + x % 3600;
    assert q == 24 * (q / 24) + q % 24;
    assert x == 86400 * (q / 24) + (3600 * (q % 24) + x % 3600);
  }

  /**
   * The split of a number of seconds: the total is recovered from the parts, and a
   * non-negative total gives seconds and minutes below 60 and hours below 24. A
   * negative total (a clock that went back) gives parts that are all non-positive.
   */
  function DhmsOf(total: int): (p: Dhms)
    ensures p.days * 86400 + p.hours * 3600 + p.minutes * 60 + p.seconds == total
    ensures total >= 0 ==> p.days >= 0 && 0 <= p.hours < 24 && 0 <= p.minutes < 60 && 0 <= p.seconds < 60
    ensures total < 0 ==> p.days <= 0 && -24 < p.hours <= 0 && -60 < p.minutes <= 0 && -60 < p.seconds <= 0
  {
    TruncDivMinutesToHours(total);
    TruncDivHoursToDays(total);
    var m := TruncDiv(total, 60);
    var h := TruncDiv(total, 3600);
    assert m == TruncDiv(total, 60) && h == TruncDiv(m, 60);
    assert TruncDiv(h, 24) * 24 + TruncRem(h, 24) == h;
    assert TruncDiv(m, 60) * 60 + TruncRem(m, 60) == m;
    assert TruncDiv(total, 60) * 60 + TruncRem(total, 60) == total;
    assert total >= 0 ==> m >= 0 && h >= 0;
    assert total < 0 ==> m <= 0 && h <= 0;
    Dhms(TruncDiv(total, 86400), TruncRem(h, 24), TruncRem(m, 60), TruncRem(total, 60))
  }

  /** The split in `info`: seconds to minutes, minutes to hours, hours to days, keeping remainders. */
  method SplitUptime(total: int) returns (p: Dhms)
    ensures p == DhmsOf(total)
  {
    var seconds := total;
    var minutes := TruncDiv(seconds, 60);
    seconds := TruncRem(seconds, 60);
    var hours := TruncDiv(minutes, 60);
    minutes := TruncRem(minutes, 60);
    var days := TruncDiv(hours, 24);
    hours := TruncRem(hours, 24);
    TruncDivMinutesToHours(total);
    TruncDivHoursToDays(total);
    p := Dhms(days, hours, minutes, seconds);
  }

  /** All four parts are non-negative, as they are for a clock that did not go back. */
  predicate NonNegative(p: Dhms) {
    p.days >= 0 && p.hours >= 0 && p.minutes >= 0 && p.seconds >= 0
  }

  /** `format!("{}d{}h{}m{}s", days, hours, minutes, seconds)`; it always ends in the seconds' 's'. */
  function DhmsText(p: Dhms): (t: string)
    ensures |t| >= 8 && t[|t| - 1] == 's'
  {
    IntToString(p.days) + "d" + IntToString(p.hours) + "h" + IntToString(p.minutes) + "m"
    + IntToString(p.seconds) + "s"
  }

  /** The uptime text loses nothing: two non-negative splits print alike only when equal. */
  lemma DhmsTextInjective(p: Dhms, q: Dhms)
    requires NonNegative(p) && NonNegative(q)
    ensures DhmsText(p) == DhmsText(q) <==> p == q
  {
    if DhmsText(p) == DhmsText(q) {
      var pd, ph, pm, ps := ToDecimal(p.days), ToDecimal(p.hours), ToDecimal(p.minutes), ToDecimal(p.seconds);
      var qd, qh, qm, qs := ToDecimal(q.days), ToDecimal(q.hours), ToDecimal(q.minutes), ToDecimal(q.seconds);
      assert DhmsText(p) == pd + ['d'] + (ph + ['h'] + (pm + ['m'] + (ps + ['s'])));
      assert DhmsText(q) == qd + ['d'] + (qh + ['h'] + (qm + ['m'] + (qs + ['s'])));
      SplitAfterDigits(pd, ph + ['h'] + (pm + ['m'] + (ps + ['s'])), qd, qh + ['h'] + (qm + ['m'] + (qs + ['s'])), 'd');
      SplitAfterDigits(ph, pm + ['m'] + (ps + ['s']), qh, qm + ['m'] + (qs + ['s']), 'h');
      SplitAfterDigits(pm, ps + ['s'], qm, qs + ['s'], 'm');
      assert ps == (ps + ['s'])[..|ps|] && qs == (qs + ['s'])[..|qs|];
      ToDecimalInjective(p.days, q.days);
      ToDecimalInjective(p.hours, q.hours);
      ToDecimalInjective(p.minutes, q.minutes);
      ToDecimalInjective(p.seconds, q.seconds);
    }
  }

  const NANOS_PER_SECOND: int := 1_000_000_000

  /**
   * The uptime line of `info`, with instants in nanoseconds: whole seconds since the
   * boot instant (truncated toward zero, as `num_seconds` does), split and rendered.
   */
  method UptimeText(uptime: Option<Bot.Uptime>, now: int) returns (text: string)
    ensures uptime.None? ==> text == "Uptime not available."
    ensures uptime.Some? && "boot" !in uptime.value ==> text == "Uptime not available"
    ensures uptime.Some? && "boot" in uptime.value ==>
      text == DhmsText(DhmsOf(TruncDiv(now - uptime.value["boot"], NANOS_PER_SECOND)))
  {
    if uptime.None? {
      return "Uptime not available.";
    }
    if "boot" !in uptime.value {
      return "Uptime not available";
    }
    var elapsed := TruncDiv(now - uptime.value["boot"], NANOS_PER_SECOND);
    var parts := SplitUptime(elapsed);
    text := DhmsText(parts);
  }

  /** 1 day, 1 hour, 1 minute and 1 second after boot reads "1d1h1m1s". */
  lemma UptimeExample(boot: int)
    ensures DhmsText(DhmsOf(TruncDiv((boot + 90061 * NANOS_PER_SECOND + 999) - boot, NANOS_PER_SECOND)))
            == "1d1h1m1s"
  {
    assert TruncDiv(90061 * NANOS_PER_SECOND + 999, NANOS_PER_SECOND) == 90061;
    var p := DhmsOf(90061);
    assert p == Dhms(1, 1, 1, 1);
  }

  // ---------------------------------------------------------------------------
  // set
  // ---------------------------------------------------------------------------

  datatype OnlineStatus = Online | Idle | DoNotDisturb | Invisible | Offline

  datatype ActivityKind = Playing | Listening | Streaming

  datatype Activity = Activity(kind: ActivityKind, name: string, url: Option<string>)

  datatype Presence = Presence(activity: Activity, status: OnlineStatus)

  /**
   * The status token, matched after `to_ascii_uppercase`: each status is chosen by its
   * name in any mix of ASCII case, and nothing else is accepted.
   */
  function ParseStatus(token: string): (r: Option<OnlineStatus>)
    ensures r == Some(Online) <==> EqIgnoreAsciiCase(token, "ONLINE")
    ensures r == Some(Idle) <==> EqIgnoreAsciiCase(token, "IDLE")
    ensures r == Some(DoNotDisturb) <==> EqIgnoreAsciiCase(token, "DND")
    ensures r == Some(Invisible) <==> EqIgnoreAsciiCase(token, "INVISIBLE")
    ensures r == Some(Offline) <==> EqIgnoreAsciiCase(token, "OFFLINE")
    ensures r.None? <==>
      !(EqIgnoreAsciiCase(token, "ONLINE") || EqIgnoreAsciiCase(token, "IDLE") || EqIgnoreAsciiCase(token, "DND")
        || EqIgnoreAsciiCase(token, "INVISIBLE") || EqIgnoreAsciiCase(token, "OFFLINE"))
  {
    UpperMatchesIgnoringCase(token, "ONLINE");
    UpperMatchesIgnoringCase(token, "IDLE");
    UpperMatchesIgnoringCase(token, "DND");
    UpperMatchesIgnoringCase(token, "INVISIBLE");
    UpperMatchesIgnoringCase(token, "OFFLINE");
    var t := AsciiUpper(token);
    if t == "ONLINE" then Some(Online)
    else if t == "IDLE" then Some(Idle)
    else if t == "DND" then Some(DoNotDisturb)
    else if t == "INVISIBLE" then Some(Invisible)
    else if t == "OFFLINE" then Some(Offline)
    else None
  }

  /**
   * The activity type token, matched after `to_ascii_uppercase`: each type is chosen
   * by its name in any mix of ASCII case, and nothing else is accepted.
   */
  function ParseKind(token: string): (r: Option<ActivityKind>)
    ensures r == Some(Playing) <==> EqIgnoreAsciiCase(token, "PLAYING")
    ensures r == Some(Listening) <==> EqIgnoreAsciiCase(token, "LISTENING")
    ensures r == Some(Streaming) <==> EqIgnoreAsciiCase(token, "STREAMING")
    ensures r.None? <==>
      !(EqIgnoreAsciiCase(token, "PLAYING") || EqIgnoreAsciiCase(token, "LISTENING") || EqIgnoreAsciiCase(token, "STREAMING"))
  {
    UpperMatchesIgnoringCase(token, "PLAYING");
    UpperMatchesIgnoringCase(token, "LISTENING");
    UpperMatchesIgnoringCase(token, "STREAMING");
    var t := AsciiUpper(token);
    if t == "PLAYING" then Some(Playing)
    else if t == "LISTENING" then Some(Listening)
    else if t == "STREAMING" then Some(Streaming)
    else None
  }

  /**
   * `set <status> <type> [<url>] <name>`, reading the tokens through a cursor: the
   * status first, then the type, then for a stream the URL; the remaining tokens
   * are the activity's name. The command takes at least three arguments.
   */
  method SetPresence(args: seq<string>) returns (r: Result<Presence, string>)
    requires |args| >= 3
    ensures ParseStatus(args[0]).None? ==> r == Err("Invalid status")
    ensures ParseStatus(args[0]).Some? && ParseKind(args[1]).None? ==> r == Err("Invalid type")
    ensures r.Ok? <==> ParseStatus(args[0]).Some? && ParseKind(args[1]).Some?
    ensures r.Ok? ==> r.value.status == ParseStatus(args[0]).value && r.value.activity.kind == ParseKind(args[1]).value
    ensures r.Ok? && r.value.activity.kind == Streaming ==>
      r.value.activity.url == Some(args[2]) && r.value.activity.name == Join(args[3..], " ")
    ensures r.Ok? && r.value.activity.kind != Streaming ==>
      r.value.activity.url == None && r.value.activity.name == Join(args[2..], " ")
  {
    var cursor := 0;
    var status := ParseStatus(args[cursor]);
    cursor := cursor + 1;
    if status.None? {
      return Err("Invalid status");
    }
    var kind := ParseKind(args[cursor]);
    cursor := cursor + 1;
    if kind.None? {
      return Err("Invalid type");
    }
    match kind.value {
      case Playing =>
        r := Ok(Presence(Activity(Playing, Join(args[cursor..], " "), None), status.value));
      case Listening =>
        r := Ok(Presence(Activity(Listening, Join(args[cursor..], " "), None), status.value));
      case Streaming =>
        var url := args[cursor];
        cursor := cursor + 1;
        r := Ok(Presence(Activity(Streaming, Join(args[cursor..], " "), Some(url)), status.value));
    }
  }

  /** For a stream the URL token is not part of the name: the name is what follows it. */
  lemma StreamNameSkipsUrl(args: seq<string>)
    requires |args| >= 4
    ensures Join(args[2..], " ") == args[2] + " " + Join(args[3..], " ")
  {
    assert args[2..][1..] == args[3..];
  }
}
