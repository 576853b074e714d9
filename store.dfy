// The guild settings table as the shard sees it through the database
// collaborator: one row per (guild, key). The database code itself is not part
// of this model; these functions state what each call the shard makes does to
// the table.

module Store {
  import opened Wrappers

  type GuildSettings = map<string, string>

  datatype Database = Database(settings: map<string, GuildSettings>)

  /** `database.getGuildSetting(guild, key)`. */
  function Setting(db: Database, guild: string, key: string): Option<string> {
    if guild in db.settings && key in db.settings[guild] then Some(db.settings[guild][key]) else None
  }

  /** `(await database.getGuildSettings(guild)).size`: no rows gives zero. */
  function SettingsSize(db: Database, guild: string): nat {
    if guild in db.settings then |db.settings[guild].Keys| else 0
  }

  /** `database.getValuesOfKey(key)`: every guild that has a row for `key`. */
  function ValuesOfKey(db: Database, key: string): (r: map<string, string>)
    ensures forall g :: g in r <==> Setting(db, g, key).Some?
    ensures forall g :: g in r ==> Some(r[g]) == Setting(db, g, key)
  {
    map g | g in db.settings && key in db.settings[g] :: db.settings[g][key]
  }

  /** `Settings.destroy({ where: { guildid } })` followed by
      `database.createGuildSettings(shard, guild)`, which writes the default
      row set. */
  function ResetToDefaults(db: Database, guild: string, defaults: GuildSettings): (r: Database)
    ensures r.settings.Keys == db.settings.Keys + {guild}
    ensures r.settings[guild] == defaults
    ensures forall g :: g in db.settings && g != guild ==> r.settings[g] == db.settings[g]
  {
    Database(db.settings[guild := defaults])
  }

  /** `Settings.destroy({ where: { guildid } })`. */
  function Destroy(db: Database, guild: string): (r: Database)
    ensures r.settings.Keys == db.settings.Keys - {guild}
    ensures forall g :: g in r.settings ==> r.settings[g] == db.settings[g]
  {
    Database(db.settings - {guild})
  }
}
