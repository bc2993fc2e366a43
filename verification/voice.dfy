/**
 * The decisions of the voice commands: the guards of `play`, the position shown
 * by `nowplaying`, and `_parse_duration`. The voice connection, the Lavalink node
 * and the readiness polling are not modelled; what they report is a parameter.
 * Durations are whole milliseconds, the unit Lavalink reports track lengths in.
 */
module Voice {
  import opened Wrappers
  import opened Text
  import opened Chat

  // ---------------------------------------------------------------------------
  // _parse_duration
  // ---------------------------------------------------------------------------

  /**
   * `_parse_duration`: whole minutes, a colon, and the remaining whole seconds,
   * unpadded; the text is digits around a single colon, with at most two digits of
   * seconds.
   */
  function DurationText(millis: nat): (s: string)
    ensures exists k :: (0 < k < |s| - 1 && s[k] == ':' && |s| - k - 1 <= 2
                         && forall i :: 0 <= i < |s| && i != k ==> IsDigit(s[i]))
  {
    var minutes, seconds := ToDecimal((millis / 1000) / 60), ToDecimal((millis / 1000) % 60);
    var s := minutes + ":" + seconds;
    assert s[|minutes|] == ':';
    assert forall i :: 0 <= i < |s| && i != |minutes| ==> IsDigit(s[i]) by {
      forall i | 0 <= i < |s| && i != |minutes| ensures IsDigit(s[i]) {
        if i < |minutes| {
          assert s[i] == minutes[i];
        } else {
          assert s[i] == seconds[i - |minutes| - 1];
        }
      }
    }
    s
  }

  /** The two parts recover the whole seconds; the seconds part stays below 60 and minutes never roll into hours. */
  lemma DurationParts(millis: nat)
    ensures (millis / 1000) % 60 < 60
    ensures ((millis / 1000) / 60) * 60 + (millis / 1000) % 60 == millis / 1000
  {
  }

  /** Two durations print alike exactly when they have the same whole number of seconds. */
  lemma DurationTextInjective(a: nat, b: nat)
    ensures DurationText(a) == DurationText(b) <==> a / 1000 == b / 1000
  {
    if DurationText(a) == DurationText(b) {
      SplitAfterDigits(ToDecimal((a / 1000) / 60), ToDecimal((a / 1000) % 60),
                       ToDecimal((b / 1000) / 60), ToDecimal((b / 1000) % 60), ':');
      ToDecimalInjective((a / 1000) / 60, (b / 1000) / 60);
      ToDecimalInjective((a / 1000) % 60, (b / 1000) % 60);
      DurationParts(a);
      DurationParts(b);
    }
  }

  /** 65 seconds print as "1:5". */
  lemma DurationExample()
    ensures DurationText(65_000) == "1:5"
  {
  }

  // ---------------------------------------------------------------------------
  // nowplaying
  // ---------------------------------------------------------------------------

  datatype Track = Track(title: string, author: string, uri: string, length: nat)

  /** What the guild's Lavalink node reports. */
  datatype Node = Node(nowPlaying: Option<Track>, timeLeft: Option<nat>)

  /**
   * `track_len - now_playing_time_left.unwrap_or(0)`; `Duration` subtraction panics
   * when the time left exceeds the length.
   */
  function TrackPosition(length: nat, timeLeft: Option<nat>): (position: nat)
    requires timeLeft.GetOr(0) <= length
    ensures position + timeLeft.GetOr(0) == length
    ensures timeLeft.None? ==> position == length
  {
    length - timeLeft.GetOr(0)
  }

  /** The position shown never passes the length shown. */
  lemma PositionNotPastLength(length: nat, timeLeft: Option<nat>)
    requires timeLeft.GetOr(0) <= length
    ensures TrackPosition(length, timeLeft) / 1000 <= length / 1000
  {
  }

  datatype Reply =
    | Say(text: string)
    | TrackEmbed(title: string, url: string, fieldName: string, fieldValue: string)

  /** A node whose track reports no more time left than its length. */
  predicate PositionDefined(node: Option<Node>) {
    node.Some? && node.value.nowPlaying.Some? ==> node.value.timeLeft.GetOr(0) <= node.value.nowPlaying.value.length
  }

  /** `nowplaying`: the reply for the guild's node, or the error that stops the command. */
  function NowPlaying(guild: Option<GuildId>, hasLavalink: bool, node: Option<Node>): (r: Result<Reply, string>)
    requires PositionDefined(node)
    ensures guild.None? ==> r == Err("GuildId not found from message.")
    ensures guild.Some? && !hasLavalink ==> r == Err("Unable to get Lavalink client from data.")
    ensures r.Ok? && r.value.Say? ==> r.value.text == "Nothing is playing at the moment."
    ensures r.Ok? && r.value.TrackEmbed? <==> guild.Some? && hasLavalink && node.Some? && node.value.nowPlaying.Some?
    ensures r.Ok? && r.value.TrackEmbed? ==>
      r.value.fieldValue == DurationText(TrackPosition(node.value.nowPlaying.value.length, node.value.timeLeft))
                            + " / " + DurationText(node.value.nowPlaying.value.length)
  {
    if guild.None? then Err("GuildId not found from message.")
    else if !hasLavalink then Err("Unable to get Lavalink client from data.")
    else if node.Some? && node.value.nowPlaying.Some? then
      var track := node.value.nowPlaying.value;
      var position := TrackPosition(track.length, node.value.timeLeft);
      Ok(TrackEmbed(track.title + " by " + track.author, track.uri, "Position",
                    DurationText(position) + " / " + DurationText(track.length)))
    else Ok(Say("Nothing is playing at the moment."))
  }

  /** With no time left reported, the track shows as played to its end. */
  lemma NoTimeLeftShowsFullLength(guild: GuildId, track: Track)
    ensures NowPlaying(Some(guild), true, Some(Node(Some(track), None))).value.fieldValue
            == DurationText(track.length) + " / " + DurationText(track.length)
  {
  }

  // ---------------------------------------------------------------------------
  // play
  // ---------------------------------------------------------------------------

  /** The guild's voice handler, with the channel it is bound to, if any. */
  datatype Handler = Handler(channel: Option<ChannelId>)

  /** The end of `play`: its result, what it sent, whether it joined, and what it queued. */
  datatype PlayOutcome = PlayOutcome(result: CommandResult, sent: seq<string>, joined: bool, queued: Option<Track>)

  /** The bot's handler in the guild is bound to a channel other than `channel`. */
  predicate BusyElsewhere(handler: Option<Handler>, channel: ChannelId) {
    handler.Some? && handler.value.channel.Some? && handler.value.channel.value != channel
  }

  /**
   * `play <query>`, its guards in order: the guild, the author's voice channel, the
   * voice manager, a handler already bound elsewhere, the join, the Lavalink client,
   * the search, and an empty result; on success only the first track is queued.
   * `search` is the outcome of the track search.
   */
  function Play(guildFound: bool, authorChannel: Option<ChannelId>, hasVoiceManager: bool,
                handler: Option<Handler>, joinSucceeds: bool, hasLavalink: bool,
                query: string, search: Result<seq<Track>, string>): (o: PlayOutcome)
    ensures authorChannel.None? ==> o.result.Err? && !o.joined && o.queued.None?
    ensures guildFound && authorChannel.None? ==>
      o.result == Err("User not in voice channel.") && o.sent == ["You need to be in a voice channel!"]
    ensures guildFound && authorChannel.Some? && hasVoiceManager && BusyElsewhere(handler, authorChannel.value) ==>
      && o.result == Err("Bot already in voice channel.")
      && o.sent == ["The bot is already in use in a voice channel."]
      && !o.joined
    ensures o.joined ==> authorChannel.Some? && !BusyElsewhere(handler, authorChannel.value)
    ensures search.Ok? && |search.value| == 0 && o.joined && hasLavalink ==>
      o.result == Err("No results found from query: " + query) && o.queued.None?
    ensures o.result.Ok? <==> o.queued.Some?
    ensures o.result.Ok? ==>
      && o.joined && search.Ok? && |search.value| > 0 && o.queued == Some(search.value[0])
      && o.sent == ["Added " + search.value[0].title + " to the queue!"]
  {
    if !guildFound then PlayOutcome(Err("Failed to get guild from Message."), [], false, None)
    else if authorChannel.None? then
      PlayOutcome(Err("User not in voice channel."), ["You need to be in a voice channel!"], false, None)
    else if !hasVoiceManager then PlayOutcome(Err("Unable to get VoiceManager from data."), [], false, None)
    else if BusyElsewhere(handler, authorChannel.value) then
      PlayOutcome(Err("Bot already in voice channel."), ["The bot is already in use in a voice channel."], false, None)
    else if !joinSucceeds then PlayOutcome(Err("Unable to join channel."), [], false, None)
    else if !hasLavalink then PlayOutcome(Err("Unable to get Lavalink client from data."), [], true, None)
    else if search.Err? then PlayOutcome(Err(search.error), [], true, None)
    else if |search.value| == 0 then
      PlayOutcome(Err("No results found from query: " + query),
                  ["Could not find any results matching the search query."], true, None)
    else
      PlayOutcome(Ok(()), ["Added " + search.value[0].title + " to the queue!"], true, Some(search.value[0]))
  }

  /** A handler bound to the author's own channel, or to none, does not stop `play`. */
  lemma SameChannelAllowed(channel: ChannelId, tracks: seq<Track>, query: string)
    requires |tracks| > 0
    ensures Play(true, Some(channel), true, Some(Handler(Some(channel))), true, true, query, Ok(tracks)).result.Ok?
    ensures Play(true, Some(channel), true, Some(Handler(None)), true, true, query, Ok(tracks)).result.Ok?
    ensures Play(true, Some(channel), true, None, true, true, query, Ok(tracks)).queued == Some(tracks[0])
  {
  }
}
