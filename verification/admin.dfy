/** The administrator command `setprefix`. */
module Admin {
  import opened Wrappers
  import opened Chat
  import Db
  import Bot

  /**
   * `setprefix <prefix>`: takes the first argument, requires a guild, upserts the
   * guild's row, then announces the change in the channel. `said` is the text the
   * command tries to send; `dbFault` and `sendFault` are failures of the database and
   * of the send. Every failure becomes the command's error text.
   */
  method SetPrefix(store: Db.PrefixStore, msg: Message, args: seq<string>,
                   dbFault: Option<string>, sendFault: Option<string>)
      returns (r: CommandResult, said: Option<string>)
    modifies store
    ensures |args| == 0 ==>
      r == Err("Arg.single was None") && said == None && store.table == old(store.table)
    ensures |args| > 0 && msg.guildId.None? ==>
      r == Err("guild_id was None") && said == None && store.table == old(store.table)
    ensures |args| > 0 && msg.guildId.Some? && dbFault.Some? ==>
      r == Err(Db.ErrorText(Db.Io(dbFault.value))) && said == None && store.table == old(store.table)
    ensures |args| > 0 && msg.guildId.Some? && dbFault.None? ==>
      && store.table == Db.Upsert(old(store.table), msg.guildId.value, args[0])
      && said == Some("Set prefix!")
      && r == (if sendFault.Some? then Err(sendFault.value) else Ok(()))
    ensures r.Ok? ==> Bot.ResolvePrefix(store, None, Message(false, msg.guildId)) == Some(args[0])
  {
    said := None;
    if |args| == 0 {
      return Err("Arg.single was None"), None;
    }
    var arg := args[0];
    if msg.guildId.None? {
      return Err("guild_id was None"), None;
    }
    var g := msg.guildId.value;
    var stored := store.SetGuildPrefix(g, arg, dbFault);
    if stored.Err? {
      return Err(Db.ErrorText(stored.error)), None;
    }
    said := Some("Set prefix!");
    if sendFault.Some? {
      return Err(sendFault.value), said;
    }
    r := Ok(());
  }
}
