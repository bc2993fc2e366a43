/**
 * The bot's wiring: the per-message prefix hook, the reaction posted after every
 * command, and the boot-time entry that the `ready` event records.
 */
module Bot {
  import opened Wrappers
  import opened Text
  import opened Chat
  import Db

  /** The prefix of every guild that has not set its own. */
  const DEFAULT_PREFIX: string := "."

  /**
   * The `dynamic_prefix` hook: a direct message needs no prefix; a guild message uses
   * the guild's stored prefix, and falls back to the default when the lookup fails
   * for any reason or the message carries no guild.
   */
  function ResolvePrefix(store: Db.PrefixStore, fault: Option<string>, msg: Message): (r: Option<string>)
    reads store
    ensures r.Some?
    ensures msg.isPrivate ==> r == Some("")
    ensures !msg.isPrivate && msg.guildId.Some? && fault.None? && Db.GuildKey(msg.guildId.value) in store.table
            ==> r == Some(store.table[Db.GuildKey(msg.guildId.value)])
    ensures !msg.isPrivate && (msg.guildId.None? || fault.Some? || Db.GuildKey(msg.guildId.value) !in store.table)
            ==> r == Some(DEFAULT_PREFIX)
  {
    if msg.isPrivate then Some("")
    else if msg.guildId.Some? then
      match store.GetGuildPrefix(msg.guildId.value, fault)
      case Ok(prefix) => Some(prefix)
      case Err(_) => Some(DEFAULT_PREFIX)
    else Some(DEFAULT_PREFIX)
  }

  /** Once a guild's row holds `p`, its guild messages resolve to `p`. */
  lemma ResolveAfterUpsert(store: Db.PrefixStore, before: Db.Table, g: GuildId, p: string)
    requires store.table == Db.Upsert(before, g, p)
    ensures ResolvePrefix(store, None, Message(false, Some(g))) == Some(p)
  {
  }

  /**
   * After the prefix of guild 123 is set to "!" in an empty table, guild 123 resolves
   * to "!" and guild 456, never set, resolves to the default ".".
   */
  lemma ResolveExample(store: Db.PrefixStore)
    requires store.table == Db.Upsert(map[], 123, "!")
    ensures ResolvePrefix(store, None, Message(false, Some(123))) == Some("!")
    ensures ResolvePrefix(store, None, Message(false, Some(456))) == Some(DEFAULT_PREFIX)
  {
  }

  const CHECK_MARK: char := '\U{2705}'
  const CROSS_MARK: char := '\U{274C}'

  /** The `after` hook: the reaction put on the invoking message. */
  function AfterReaction(result: CommandResult): (c: char)
    ensures c == CHECK_MARK <==> result.Ok?
    ensures c == CROSS_MARK <==> result.Err?
  {
    match result
    case Ok(_) => CHECK_MARK
    case Err(_) => CROSS_MARK
  }

  /** The `Uptime` entry of the client data: named instants, in nanoseconds. */
  type Uptime = map<string, int>

  /**
   * `entry("boot").or_insert_with(Utc::now)`: "boot" holds the instant first recorded,
   * and every other key is left as it was.
   */
  function InsertBoot(uptime: Uptime, now: int): (r: Uptime)
    ensures "boot" in r && r["boot"] == if "boot" in uptime then uptime["boot"] else now
    ensures forall k :: k != "boot" ==> (k in r <==> k in uptime)
    ensures forall k :: k != "boot" && k in uptime ==> r[k] == uptime[k]
  {
    if "boot" in uptime then uptime else uptime["boot" := now]
  }

  /** The shared client data, reduced to the `Uptime` entry (absent if never inserted). */
  class ClientData {
    var uptime: Option<Uptime>

    /** `main` inserts an empty `Uptime` map before the client starts. */
    constructor()
      ensures uptime == Some(map[])
    {
      uptime := Some(map[]);
    }

    /** The `ready` event handler; without an `Uptime` entry it only logs an error. */
    method Ready(now: int)
      modifies this
      ensures old(uptime).Some? ==> uptime == Some(InsertBoot(old(uptime).value, now))
      ensures old(uptime).None? ==> uptime == None
    {
      if uptime.Some? {
        uptime := Some(InsertBoot(uptime.value, now));
      }
    }
  }

  /** The first ready event fixes the boot time; later ones leave it alone. */
  lemma ReadyKeepsFirstBoot(uptime: Uptime, first: int, later: int)
    ensures InsertBoot(InsertBoot(uptime, first), later) == InsertBoot(uptime, first)
  {
  }
}
