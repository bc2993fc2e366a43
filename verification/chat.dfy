/** The few values of the chat framework (serenity) that the modelled logic inspects. */
module Chat {
  import opened Wrappers
  import opened Text

  type GuildId = u64
  type ChannelId = u64

  /**
   * An incoming message, reduced to what the prefix hook and the commands look at:
   * whether the framework reports it as private (a direct message) and the guild
   * it was sent in, if any.
   */
  datatype Message = Message(isPrivate: bool, guildId: Option<GuildId>)

  /** `CommandResult`: `Ok(())` or a `CommandError` carrying its text. */
  type CommandResult = Result<(), string>
}
