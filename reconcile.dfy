// Startup reconciliation of the settings table with the guilds the shard is
// in (populateGuildConfigDatabase, shard.ts lines 413-459), the bot-farm test
// (lines 406-411) and the constructor's registration of the stored prefixes
// (lines 45-49), stated as functions. The Shard class runs the same loops.

module Reconcile {
  import opened Wrappers
  import opened Matchers
  import opened Store
  import opened Router

  /** The guild ids exempt from the bot-farm test (lines 25-27). */
  const DiscordBotsGuildId: string := "110373943822540800"
  const DiscordBotListGuildId: string := "264445053596991498"
  const NovoGuildId: string := "297462937646530562"

  /** Most bot members a guild may have before it counts as a bot farm. */
  const MaxBots: nat := 20

  /** The parts of a Discord guild the reconciliation reads. */
  datatype Guild = Guild(id: string, botMembers: nat)

  /** A row of the prefix list the shard is constructed with. */
  datatype PrefixRecord = PrefixRecord(guildId: string, prefix: string)

  /** A database state with a counter of the guilds a pass touched. */
  datatype Tally = Tally(db: Database, count: nat)

  predicate Exempt(id: string) {
    id == DiscordBotListGuildId || id == DiscordBotsGuildId || id == NovoGuildId
  }

  /** isBotFarm: not exempt and more than 20 members that are bots. */
  predicate IsBotFarm(g: Guild) {
    !Exempt(g.id) && g.botMembers > MaxBots
  }

  /** The three listed guilds are never left, however many bots they hold;
      a guild with at most 20 bots is never left; and adding bots to a farm
      keeps it a farm. */
  lemma BotFarmBoundaries(g: Guild, extra: nat)
    ensures Exempt(g.id) ==> !IsBotFarm(g)
    ensures g.botMembers <= MaxBots ==> !IsBotFarm(g)
    ensures !Exempt(g.id) ==> (IsBotFarm(g) <==> g.botMembers >= MaxBots + 1)
    ensures IsBotFarm(g) ==> IsBotFarm(g.(botMembers := g.botMembers + extra))
  {
  }

  /** The guilds the shard stays in, in order. */
  function NonFarms(gs: seq<Guild>): (r: seq<Guild>)
    ensures forall g :: g in r <==> g in gs && !IsBotFarm(g)
  {
    if gs == [] then []
    else NonFarms(gs[..|gs| - 1]) + (if IsBotFarm(gs[|gs| - 1]) then [] else [gs[|gs| - 1]])
  }

  /** The guilds the shard leaves, in order. */
  function FarmIds(gs: seq<Guild>): (r: seq<string>)
    ensures forall id :: id in r <==> exists g :: g in gs && IsBotFarm(g) && g.id == id
  {
    if gs == [] then []
    else
      var init := gs[..|gs| - 1];
      assert forall g :: g in gs <==> g in init || g == gs[|gs| - 1];
      FarmIds(init) + (if IsBotFarm(gs[|gs| - 1]) then [gs[|gs| - 1].id] else [])
  }

  // ----- Constructor: registering the stored prefixes (lines 45-49) -----

  /** `prefixList.forEach`: register each record whose guild this shard owns,
      in list order. */
  function RegisterOwned(reg: Registry, list: seq<PrefixRecord>, shardOf: string -> int, shardId: int): Registry
  {
    if list == [] then reg
    else
      var r := RegisterOwned(reg, list[..|list| - 1], shardOf, shardId);
      var last := list[|list| - 1];
      if shardOf(last.guildId) == shardId then Register(r, last.guildId, last.prefix) else r
  }

  /** One more record of the prefix list. */
  lemma RegisterOwnedStep(reg: Registry, list: seq<PrefixRecord>, i: nat, shardOf: string -> int, shardId: int)
    requires i < |list|
    ensures RegisterOwned(reg, list[..i + 1], shardOf, shardId)
      == var r := RegisterOwned(reg, list[..i], shardOf, shardId);
         if shardOf(list[i].guildId) == shardId then Register(r, list[i].guildId, list[i].prefix) else r
  {
    assert list[..i + 1][..i] == list[..i];
  }

  /** One more guild for the bot-farm loop. */
  lemma FarmIdsStep(gs: seq<Guild>, i: nat)
    requires i < |gs|
    ensures FarmIds(gs[..i + 1]) == FarmIds(gs[..i]) + (if IsBotFarm(gs[i]) then [gs[i].id] else [])
  {
    assert gs[..i + 1][..i] == gs[..i];
  }

  /** The prefix of the last record for `guild` that the shard owns. */
  function LastOwnedPrefix(list: seq<PrefixRecord>, shardOf: string -> int, shardId: int, guild: string): (r: Option<string>)
    ensures r.Some? <==> exists k :: 0 <= k < |list| && list[k].guildId == guild && shardOf(guild) == shardId
    ensures r.Some? ==>
      exists k :: 0 <= k < |list| && list[k] == PrefixRecord(guild, r.value)
        && forall j :: k < j < |list| ==> list[j].guildId != guild
  {
    if list == [] then None
    else if list[|list| - 1].guildId == guild && shardOf(guild) == shardId then Some(list[|list| - 1].prefix)
    else
      var r := LastOwnedPrefix(list[..|list| - 1], shardOf, shardId, guild);
      assert forall k :: 0 <= k < |list| - 1 ==> list[..|list| - 1][k] == list[k];
      r
  }

  /** After construction a guild has matchers exactly when it had them or
      the shard owns a record for it; the last such record's prefix wins, and
      other guilds keep their matchers. */
  lemma {:induction false} RegisterOwnedLookup(reg: Registry, list: seq<PrefixRecord>, shardOf: string -> int, shardId: int, guild: string)
    ensures var r := RegisterOwned(reg, list, shardOf, shardId);
      && (guild in r.commandRegex <==> guild in reg.commandRegex || LastOwnedPrefix(list, shardOf, shardId, guild).Some?)
      && (guild in r.prefixTestRegex <==> guild in reg.prefixTestRegex || LastOwnedPrefix(list, shardOf, shardId, guild).Some?)
      && (LastOwnedPrefix(list, shardOf, shardId, guild).Some? ==>
            && r.commandRegex[guild] == CompileCommand(LastOwnedPrefix(list, shardOf, shardId, guild).value)
            && r.prefixTestRegex[guild] == CompileTest(LastOwnedPrefix(list, shardOf, shardId, guild).value))
      && (LastOwnedPrefix(list, shardOf, shardId, guild).None? && guild in reg.commandRegex ==>
            r.commandRegex[guild] == reg.commandRegex[guild])
      && (LastOwnedPrefix(list, shardOf, shardId, guild).None? && guild in reg.prefixTestRegex ==>
            r.prefixTestRegex[guild] == reg.prefixTestRegex[guild])
  {
    if list != [] {
      RegisterOwnedLookup(reg, list[..|list| - 1], shardOf, shardId, guild);
    }
  }

  lemma {:induction false} RegisterOwnedConsistent(reg: Registry, list: seq<PrefixRecord>, shardOf: string -> int, shardId: int)
    requires Consistent(reg)
    ensures Consistent(RegisterOwned(reg, list, shardOf, shardId))
  {
    if list != [] {
      RegisterOwnedConsistent(reg, list[..|list| - 1], shardOf, shardId);
      var r := RegisterOwned(reg, list[..|list| - 1], shardOf, shardId);
      RegisterKeepsConsistent(r, list[|list| - 1].guildId, list[|list| - 1].prefix);
    }
  }

  // ----- populateGuildConfigDatabase, first pass (lines 416-428) -----

  /** Each guild whose row count differs from the number of possible keys is
      destroyed and recreated with the defaults, and counted. */
  function ResetPass(db: Database, gs: seq<Guild>, defaults: GuildSettings): Tally {
    if gs == [] then Tally(db, 0)
    else
      var t := ResetPass(db, gs[..|gs| - 1], defaults);
      var id := gs[|gs| - 1].id;
      if SettingsSize(t.db, id) != |defaults.Keys| then Tally(ResetToDefaults(t.db, id, defaults), t.count + 1)
      else t
  }

  /** One more guild visited by the first pass. */
  lemma ResetPassStep(db: Database, gs: seq<Guild>, i: nat, defaults: GuildSettings, t: Tally)
    requires i < |gs| && ResetPass(db, gs[..i], defaults) == t
    ensures SettingsSize(t.db, gs[i].id) != |defaults.Keys| ==>
      ResetPass(db, gs[..i + 1], defaults) == Tally(ResetToDefaults(t.db, gs[i].id, defaults), t.count + 1)
    ensures SettingsSize(t.db, gs[i].id) == |defaults.Keys| ==> ResetPass(db, gs[..i + 1], defaults) == t
  {
    assert gs[..i + 1][..i] == gs[..i];
  }

  /** Whether some guild of `gs` has this id. */
  predicate Listed(gs: seq<Guild>, id: string) {
    exists k :: 0 <= k < |gs| && gs[k].id == id
  }

  /** After the first pass every listed guild has a complete row set; a guild
      whose rows were complete, or that is not listed, is untouched; a listed
      guild with the wrong count now holds exactly the defaults; and no guild
      is counted exactly when every listed guild was complete. */
  lemma {:induction false} ResetPassFacts(db: Database, gs: seq<Guild>, defaults: GuildSettings, id: string)
    ensures var t := ResetPass(db, gs, defaults);
      && (Listed(gs, id) ==> SettingsSize(t.db, id) == |defaults.Keys|)
      && (!Listed(gs, id) || SettingsSize(db, id) == |defaults.Keys| ==>
            (id in t.db.settings <==> id in db.settings) && (id in db.settings ==> t.db.settings[id] == db.settings[id]))
      && (Listed(gs, id) && SettingsSize(db, id) != |defaults.Keys| ==> id in t.db.settings && t.db.settings[id] == defaults)
      && t.count <= |gs|
      && (t.count == 0 <==> forall k :: 0 <= k < |gs| ==> SettingsSize(db, gs[k].id) == |defaults.Keys|)
  {
    if gs != [] {
      var init := gs[..|gs| - 1];
      var last := gs[|gs| - 1];
      ResetPassFacts(db, init, defaults, id);
      ResetPassFacts(db, init, defaults, last.id);
      assert forall k :: 0 <= k < |init| ==> init[k] == gs[k];
      assert Listed(gs, id) <==> Listed(init, id) || last.id == id;
    }
  }

  // ----- Second pass (lines 435-445) -----

  /** Each guild without a `prefix` row in the table read before the loop
      gets the default settings, and is counted. */
  function AddPass(db: Database, gs: seq<Guild>, configs: map<string, string>, defaults: GuildSettings): Tally {
    if gs == [] then Tally(db, 0)
    else
      var t := AddPass(db, gs[..|gs| - 1], configs, defaults);
      var id := gs[|gs| - 1].id;
      if id !in configs then Tally(ResetToDefaults(t.db, id, defaults), t.count + 1) else t
  }

  /** One more guild visited by the second pass. */
  lemma AddPassStep(db: Database, gs: seq<Guild>, i: nat, configs: map<string, string>, defaults: GuildSettings)
    requires i < |gs|
    ensures AddPass(db, gs[..i + 1], configs, defaults)
      == var t := AddPass(db, gs[..i], configs, defaults);
         if gs[i].id !in configs then Tally(ResetToDefaults(t.db, gs[i].id, defaults), t.count + 1) else t
  {
    assert gs[..i + 1][..i] == gs[..i];
  }

  /** A listed guild missing from the prefix table now holds the defaults;
      every other guild is untouched; nobody is counted exactly when every
      listed guild was in the table. */
  lemma {:induction false} AddPassFacts(db: Database, gs: seq<Guild>, configs: map<string, string>, defaults: GuildSettings, id: string)
    ensures var t := AddPass(db, gs, configs, defaults);
      && (Listed(gs, id) && id !in configs ==> id in t.db.settings && t.db.settings[id] == defaults)
      && (!Listed(gs, id) || id in configs ==>
            (id in t.db.settings <==> id in db.settings) && (id in db.settings ==> t.db.settings[id] == db.settings[id]))
      && t.count <= |gs|
      && (t.count == 0 <==> forall k :: 0 <= k < |gs| ==> gs[k].id in configs)
  {
    if gs != [] {
      var init := gs[..|gs| - 1];
      AddPassFacts(db, init, configs, defaults, id);
      assert forall k :: 0 <= k < |init| ==> init[k] == gs[k];
      assert Listed(gs, id) <==> Listed(init, id) || gs[|gs| - 1].id == id;
    }
  }

  // ----- Third pass (lines 449-458) -----

  /** A matcher pair for every guild with a prefix row whose id has no
      command matcher yet (the test on line 455 looks at the command table
      twice); existing entries are kept. */
  function RegisterMissing(reg: Registry, records: map<string, string>): (r: Registry)
    ensures r.commandRegex.Keys == reg.commandRegex.Keys + records.Keys
    ensures r.prefixTestRegex.Keys == reg.prefixTestRegex.Keys + (records.Keys - reg.commandRegex.Keys)
  {
    Registry(
      map g | g in reg.commandRegex.Keys + records.Keys ::
        if g in reg.commandRegex then reg.commandRegex[g] else CompileCommand(records[g]),
      map g | g in reg.prefixTestRegex.Keys + (records.Keys - reg.commandRegex.Keys) ::
        if g in records && g !in reg.commandRegex then CompileTest(records[g]) else reg.prefixTestRegex[g])
  }

  /** Existing command matchers survive, including a default-prefix fallback
      made while the shard was starting; a guild that had none gets the
      matchers for its stored prefix. */
  lemma RegisterMissingFacts(reg: Registry, records: map<string, string>, guild: string)
    ensures var r := RegisterMissing(reg, records);
      && (guild in reg.commandRegex ==> r.commandRegex[guild] == reg.commandRegex[guild])
      && (guild in reg.commandRegex && guild in reg.prefixTestRegex ==>
            r.prefixTestRegex[guild] == reg.prefixTestRegex[guild])
      && (guild in records && guild !in reg.commandRegex ==>
            Registered(r, guild)
            && r.commandRegex[guild] == CompileCommand(records[guild])
            && r.prefixTestRegex[guild] == CompileTest(records[guild]))
  {
  }

  lemma RegisterMissingConsistent(reg: Registry, records: map<string, string>)
    requires Consistent(reg)
    ensures Consistent(RegisterMissing(reg, records))
    ensures forall g :: g in records ==> Registered(RegisterMissing(reg, records), g)
  {
  }

  /** The records whose guild ids are in `done`. */
  function Restrict(records: map<string, string>, done: set<string>): (r: map<string, string>)
    ensures r.Keys == records.Keys * done
    ensures forall g :: g in r ==> r[g] == records[g]
  {
    map g | g in records.Keys * done :: records[g]
  }

  /** The third pass, one record at a time: visiting a record adds matchers
      only when its guild had no command matcher before the pass. */
  lemma RegisterMissingStep(reg: Registry, records: map<string, string>, done: set<string>, g: string)
    requires g in records
    ensures RegisterMissing(reg, Restrict(records, done + {g}))
      == if g !in reg.commandRegex then Register(RegisterMissing(reg, Restrict(records, done)), g, records[g])
         else RegisterMissing(reg, Restrict(records, done))
  {
    var r1 := Restrict(records, done);
    var r2 := Restrict(records, done + {g});
    assert r2 == r1[g := records[g]];
    if g !in reg.commandRegex {
      StepNew(reg, r1, g, records[g]);
    } else {
      StepKnown(reg, r1, g, records[g]);
    }
  }

  lemma StepNew(reg: Registry, r1: map<string, string>, g: string, p: string)
    requires g !in reg.commandRegex
    ensures RegisterMissing(reg, r1[g := p]) == Register(RegisterMissing(reg, r1), g, p)
  {
    StepNewCommand(reg, r1, g, p);
    StepNewTest(reg, r1, g, p);
  }

  lemma StepNewCommand(reg: Registry, r1: map<string, string>, g: string, p: string)
    requires g !in reg.commandRegex
    ensures RegisterMissing(reg, r1[g := p]).commandRegex == RegisterMissing(reg, r1).commandRegex[g := CompileCommand(p)]
  {
    var r2 := r1[g := p];
    var after := RegisterMissing(reg, r2).commandRegex;
    var expected := RegisterMissing(reg, r1).commandRegex[g := CompileCommand(p)];
    assert after.Keys == expected.Keys by {
      assert reg.commandRegex.Keys + r2.Keys == (reg.commandRegex.Keys + r1.Keys) + {g};
    }
    forall k | k in after
      ensures after[k] == expected[k]
    {
      if k == g {
        assert after[k] == CompileCommand(p);
      } else if k in reg.commandRegex {
        assert after[k] == reg.commandRegex[k];
      } else {
        assert r2[k] == r1[k];
        assert after[k] == CompileCommand(r1[k]);
      }
    }
  }

  lemma StepNewTest(reg: Registry, r1: map<string, string>, g: string, p: string)
    requires g !in reg.commandRegex
    ensures RegisterMissing(reg, r1[g := p]).prefixTestRegex == RegisterMissing(reg, r1).prefixTestRegex[g := CompileTest(p)]
  {
    var r2 := r1[g := p];
    var after := RegisterMissing(reg, r2).prefixTestRegex;
    var before := RegisterMissing(reg, r1).prefixTestRegex;
    var expected := before[g := CompileTest(p)];
    assert after.Keys == expected.Keys by {
      assert r2.Keys - reg.commandRegex.Keys == (r1.Keys - reg.commandRegex.Keys) + {g};
    }
    forall k | k in after
      ensures after[k] == expected[k]
    {
      if k == g {
        assert after[k] == CompileTest(p);
      } else if k in r1 && k !in reg.commandRegex {
        assert r2[k] == r1[k];
        assert after[k] == CompileTest(r1[k]) == before[k];
      } else {
        assert k !in r2 || k in reg.commandRegex;
        assert after[k] == reg.prefixTestRegex[k] == before[k];
      }
    }
  }

  lemma StepKnown(reg: Registry, r1: map<string, string>, g: string, p: string)
    requires g in reg.commandRegex
    ensures RegisterMissing(reg, r1[g := p]) == RegisterMissing(reg, r1)
  {
    StepKnownCommand(reg, r1, g, p);
    StepKnownTest(reg, r1, g, p);
  }

  lemma StepKnownCommand(reg: Registry, r1: map<string, string>, g: string, p: string)
    requires g in reg.commandRegex
    ensures RegisterMissing(reg, r1[g := p]).commandRegex == RegisterMissing(reg, r1).commandRegex
  {
    var after := RegisterMissing(reg, r1[g := p]).commandRegex;
    var before := RegisterMissing(reg, r1).commandRegex;
    assert after.Keys == before.Keys;
    forall k | k in after
      ensures after[k] == before[k]
    {
      if k in reg.commandRegex {
        assert after[k] == reg.commandRegex[k];
      } else {
        assert r1[g := p][k] == r1[k];
      }
    }
  }

  lemma StepKnownTest(reg: Registry, r1: map<string, string>, g: string, p: string)
    requires g in reg.commandRegex
    ensures RegisterMissing(reg, r1[g := p]).prefixTestRegex == RegisterMissing(reg, r1).prefixTestRegex
  {
    var after := RegisterMissing(reg, r1[g := p]).prefixTestRegex;
    var before := RegisterMissing(reg, r1).prefixTestRegex;
    assert after.Keys == before.Keys by {
      assert r1[g := p].Keys - reg.commandRegex.Keys == r1.Keys - reg.commandRegex.Keys;
    }
    forall k | k in after
      ensures after[k] == before[k]
    {
      if k in r1 && k !in reg.commandRegex {
        assert r1[g := p][k] == r1[k];
      }
    }
  }

  lemma RestrictAll(records: map<string, string>, reg: Registry)
    ensures Restrict(records, {}) == map[]
    ensures RegisterMissing(reg, map[]) == reg
    ensures Restrict(records, records.Keys) == records
  {
    assert RegisterMissing(reg, map[]).commandRegex == reg.commandRegex;
    assert RegisterMissing(reg, map[]).prefixTestRegex == reg.prefixTestRegex;
  }

  // ----- The whole reconciliation -----

  /** The state populateGuildConfigDatabase leaves behind. */
  datatype Reconciled = Reconciled(registry: Registry, db: Database, resets: nat, added: nat)

  function Populate(reg: Registry, db: Database, gs: seq<Guild>, defaults: GuildSettings): Reconciled {
    var first := ResetPass(db, gs, defaults);
    var second := AddPass(first.db, gs, ValuesOfKey(first.db, "prefix"), defaults);
    Reconciled(RegisterMissing(reg, ValuesOfKey(second.db, "prefix")), second.db, first.count, second.count)
  }

  /** After reconciliation every guild of the shard has a complete row set,
      a stored prefix and both matchers; a guild that had no command matcher
      now matches with its stored prefix, and one that had keeps it. */
  lemma PopulateFacts(reg: Registry, db: Database, gs: seq<Guild>, defaults: GuildSettings, id: string)
    requires "prefix" in defaults && Consistent(reg)
    requires Listed(gs, id)
    ensures var p := Populate(reg, db, gs, defaults);
      && SettingsSize(p.db, id) == |defaults.Keys|
      && Setting(p.db, id, "prefix").Some?
      && Registered(p.registry, id)
      && (id in reg.commandRegex ==> p.registry.commandRegex[id] == reg.commandRegex[id])
      && (id !in reg.commandRegex ==>
            p.registry.commandRegex[id] == CompileCommand(Setting(p.db, id, "prefix").value))
      && Consistent(p.registry)
  {
    var first := ResetPass(db, gs, defaults);
    var configs := ValuesOfKey(first.db, "prefix");
    var second := AddPass(first.db, gs, configs, defaults);
    ResetPassFacts(db, gs, defaults, id);
    AddPassFacts(first.db, gs, configs, defaults, id);
    RegisterMissingFacts(reg, ValuesOfKey(second.db, "prefix"), id);
    RegisterMissingConsistent(reg, ValuesOfKey(second.db, "prefix"));
  }

  /** A guild whose matchers were made from the default prefix while the
      shard was starting keeps them even when its stored prefix differs, so
      it does not answer to its own prefix until the shard restarts. */
  lemma FallbackSurvives(reg: Registry, db: Database, gs: seq<Guild>, defaults: GuildSettings, id: string, defaultPrefix: string)
    requires "prefix" in defaults && Consistent(reg) && Listed(gs, id)
    requires id in reg.commandRegex && reg.commandRegex[id] == CompileCommand(defaultPrefix)
    ensures Populate(reg, db, gs, defaults).registry.commandRegex[id] == CompileCommand(defaultPrefix)
  {
    PopulateFacts(reg, db, gs, defaults, id);
  }
}
