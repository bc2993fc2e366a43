/**
 * The per-guild prefix store: one SQLite table `Prefix(guild_id TEXT PRIMARY KEY,
 * prefix TEXT)` whose key is the guild id written in decimal. The table is a map
 * from key text to prefix; the file, the connection and SQLite itself are not
 * modelled, and any failure of theirs arrives as a `fault` parameter.
 */
module Db {
  import opened Wrappers
  import opened Text

  /** The rows of the `Prefix` table, by primary key. */
  type Table = map<string, string>

  datatype DbError =
    | NotFound                  // no row for the guild
    | Io(message: string)       // project directory, connection, statement or row failure
    | BadKey(kind: ParseIntError)  // a stored guild_id that is not a u64

  /** The text the error carries (what `to_string` on the boxed error gives). */
  function ErrorText(e: DbError): string {
    match e
    case NotFound => "Guild not found."
    case Io(m) => m
    case BadKey(k) => ParseIntErrorText(k)
  }

  /** `guild_id.as_u64().to_string()`: the key a guild's row is stored under. */
  function GuildKey(g: u64): string {
    ToDecimal(g)
  }

  /**
   * `SELECT * FROM Prefix WHERE guild_id == ?`, keeping the prefix column of the first
   * row: the guild's row when there is one, otherwise "Guild not found.".
   */
  function Select(table: Table, g: u64): (r: Result<string, DbError>)
    ensures r.Ok? <==> GuildKey(g) in table
    ensures r.Ok? ==> r.value == table[GuildKey(g)]
    ensures r.Err? ==> r.error == NotFound && ErrorText(r.error) == "Guild not found."
  {
    if GuildKey(g) in table then Ok(table[GuildKey(g)]) else Err(NotFound)
  }

  /**
   * `INSERT OR REPLACE INTO Prefix (guild_id, prefix) values (?1, ?2)`: afterwards the
   * lookup of `g` finds `p`, and the lookup of every other guild is what it was.
   */
  function Upsert(table: Table, g: u64, p: string): (r: Table)
    ensures Select(r, g) == Ok(p)
    ensures forall h: u64 :: h != g ==> Select(r, h) == Select(table, h)
  {
    OtherGuildsOtherKeys(g);
    table[GuildKey(g) := p]
  }

  /** Every key is the decimal text of some guild id, as `Upsert` writes them. */
  ghost predicate Canonical(table: Table) {
    forall k :: k in table ==> exists g: u64 :: k == GuildKey(g)
  }

  /**
   * `m` is what the row loop of `get_all_prefixes` can produce from `table`: every
   * key parses, every parsed id is present, and each id holds the prefix of a row
   * whose key parses to it (keys such as "7", "07" and "+7" parse alike, and then the
   * row read last wins).
   */
  ghost predicate LoadedFrom(table: Table, m: map<u64, string>) {
    && (forall k :: k in table ==> ParseU64(k).Ok? && ParseU64(k).value in m)
    && (forall g :: g in m ==> exists k :: k in table && ParseU64(k) == Ok(g) && m[g] == table[k])
  }

  class PrefixStore {
    var table: Table

    /** Opens the store over whatever rows the database file already holds. */
    constructor(rows: Table)
      ensures table == rows
    {
      table := rows;
    }

    /** `get_guild_prefix`; `fault` is the failure, if any, of reaching the database. */
    function GetGuildPrefix(g: u64, fault: Option<string>): (r: Result<string, DbError>)
      reads this
      ensures r.Ok? <==> fault.None? && GuildKey(g) in table
      ensures r.Ok? ==> r.value == table[GuildKey(g)]
      ensures fault.None? && GuildKey(g) !in table ==> ErrorText(r.error) == "Guild not found."
      ensures fault.Some? ==> r == Err(Io(fault.value))
    {
      if fault.Some? then Err(Io(fault.value)) else Select(table, g)
    }

    /** `set_guild_prefix`: an upsert of the guild's row, unless the database cannot be reached. */
    method SetGuildPrefix(g: u64, p: string, fault: Option<string>) returns (r: Result<(), DbError>)
      modifies this
      ensures fault.Some? ==> r == Err(Io(fault.value)) && table == old(table)
      ensures fault.None? ==> r == Ok(()) && table == Upsert(old(table), g, p)
    {
      if fault.Some? {
        return Err(Io(fault.value));
      }
      table := Upsert(table, g, p);
      r := Ok(());
    }

    /**
     * `get_all_prefixes`: reads every row (in no particular order) into a map keyed
     * by the parsed guild id, and fails as a whole on the first key that does not
     * parse as a `u64`.
     */
    method GetAllPrefixes(fault: Option<string>) returns (r: Result<map<u64, string>, DbError>)
      ensures fault.Some? ==> r == Err(Io(fault.value))
      ensures fault.None? ==> (r.Ok? <==> forall k :: k in table ==> ParseU64(k).Ok?)
      ensures fault.None? && r.Err? ==> r.error.BadKey? && exists k :: k in table && ParseU64(k) == Err(r.error.kind)
      ensures r.Ok? ==> LoadedFrom(table, r.value)
    {
      if fault.Some? {
        return Err(Io(fault.value));
      }
      var remaining := table.Keys;
      var prefixes: map<u64, string> := map[];
      while remaining != {}
        invariant remaining <= table.Keys
        invariant forall k :: k in table && k !in remaining ==> ParseU64(k).Ok? && ParseU64(k).value in prefixes
        invariant forall g :: g in prefixes ==>
            exists k :: k in table && k !in remaining && ParseU64(k) == Ok(g) && prefixes[g] == table[k]
        decreases remaining
      {
        var k :| k in remaining;
        var parsed := ParseU64(k);
        if parsed.Err? {
          return Err(BadKey(parsed.error));
        }
        prefixes := prefixes[parsed.value := table[k]];
        remaining := remaining - {k};
      }
      r := Ok(prefixes);
    }
  }

  // ---------------------------------------------------------------------------
  // Properties of the table
  // ---------------------------------------------------------------------------

  /** Two guilds never share a key. */
  lemma GuildKeyInjective(g: u64, h: u64)
    requires GuildKey(g) == GuildKey(h)
    ensures g == h
  {
    ToDecimalInjective(g, h);
  }

  /** Every other guild's key differs from `g`'s. */
  lemma OtherGuildsOtherKeys(g: u64)
    ensures forall h: u64 :: h != g ==> GuildKey(h) != GuildKey(g)
  {
    forall h: u64 | h != g ensures GuildKey(h) != GuildKey(g) {
      if GuildKey(h) == GuildKey(g) {
        GuildKeyInjective(h, g);
      }
    }
  }

  /** A second upsert for the same guild replaces the first one's prefix. */
  lemma SetReplaces(table: Table, g: u64, p: string, q: string)
    ensures Upsert(Upsert(table, g, p), g, q) == Upsert(table, g, q)
    ensures |Upsert(Upsert(table, g, p), g, q)| == |Upsert(table, g, p)|
  {
  }

  /** Writing the same prefix twice gives the table that writing it once gives. */
  lemma SetIdempotent(table: Table, g: u64, p: string)
    ensures Upsert(Upsert(table, g, p), g, p) == Upsert(table, g, p)
  {
  }

  /** Upserts keep every key in canonical decimal form. */
  lemma UpsertKeepsCanonical(table: Table, g: u64, p: string)
    requires Canonical(table)
    ensures Canonical(Upsert(table, g, p))
  {
  }

  /** In a canonical table no two rows belong to the same guild id. */
  lemma CanonicalOneRowPerGuild(table: Table, k1: string, k2: string)
    requires Canonical(table) && k1 in table && k2 in table
    requires ParseU64(k1) == ParseU64(k2)
    ensures k1 == k2
  {
    var g1: u64 :| k1 == GuildKey(g1);
    var g2: u64 :| k2 == GuildKey(g2);
    ParseToDecimal(g1);
    ParseToDecimal(g2);
  }

  /**
   * Loading a table that only upserts have written gives back exactly its rows:
   * `g` is loaded precisely when the table has a row for `g`, with that row's prefix.
   */
  lemma LoadCanonical(table: Table, m: map<u64, string>, g: u64)
    requires Canonical(table) && LoadedFrom(table, m)
    ensures g in m <==> GuildKey(g) in table
    ensures g in m ==> m[g] == table[GuildKey(g)]
  {
    ParseToDecimal(g);
    if g in m {
      var k :| k in table && ParseU64(k) == Ok(g) && m[g] == table[k];
      var h: u64 :| k == GuildKey(h);
      ParseToDecimal(h);
      assert k == GuildKey(g);
    }
  }
}
