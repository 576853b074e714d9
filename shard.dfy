// The Shard class (shard.ts lines 29-459): its matcher tables, command and
// processor registries and message buffer are fields that the methods update
// in place; each method is proved to leave the state the pure definitions in
// Router, Replay and Reconcile describe.

module Shards {
  import opened Wrappers
  import opened Text
  import opened Usage
  import opened Store
  import opened Escape
  import opened Matchers
  import opened Router
  import opened Replay
  import opened Reconcile

  /** What the shard does towards a guild as a whole. */
  datatype GuildEffect = LeftGuild(id: string) | Greeted(id: string, text: string)

  /** The greeting sent to a guild that adds the bot (line 272). */
  function Greeting(defaultPrefix: string): string {
    "Hello! I am Safety Jim, `" + defaultPrefix + "` is my default prefix!"
  }

  /** One usage text per command, in key order. */
  function UsageTexts(prefix: string, order: seq<string>, commands: map<string, Command>): (r: seq<string>)
    requires forall i :: 0 <= i < |order| ==> order[i] in commands
    ensures |r| == |order|
    ensures forall i :: 0 <= i < |order| ==> r[i] == UsageString(prefix, commands[order[i]].usage)
  {
    if order == [] then [] else [UsageString(prefix, commands[order[0]].usage)] + UsageTexts(prefix, order[1..], commands)
  }

  /** getUsageStrings: every command's usage text, in key order, joined with
      newlines. */
  function UsageStrings(prefix: string, order: seq<string>, commands: map<string, Command>): string
    requires forall i :: 0 <= i < |order| ==> order[i] in commands
  {
    Join(UsageTexts(prefix, order, commands), "\n")
  }

  /** Loading a new command adds its usage text as the last line. */
  lemma UsageStringsAfterLoad(prefix: string, order: seq<string>, commands: map<string, Command>, name: string, cmd: Command)
    requires forall i :: 0 <= i < |order| ==> order[i] in commands
    requires order != [] && name !in commands
    ensures forall i :: 0 <= i < |order + [name]| ==> (order + [name])[i] in commands[name := cmd]
    ensures UsageStrings(prefix, order + [name], commands[name := cmd])
            == UsageStrings(prefix, order, commands) + "\n" + UsageString(prefix, cmd.usage)
  {
    var after := commands[name := cmd];
    var texts := UsageTexts(prefix, order + [name], after);
    assert texts == UsageTexts(prefix, order, commands) + [UsageString(prefix, cmd.usage)];
    JoinAppend(UsageTexts(prefix, order, commands), UsageString(prefix, cmd.usage), "\n");
  }

  /** Both matcher tables are paired, and the key order lists every command
      once. */
  ghost predicate ShardInvariant(reg: Registry, commands: map<string, Command>, order: seq<string>) {
    && Consistent(reg)
    && (forall i, j :: 0 <= i < j < |order| ==> order[i] != order[j])
    && (forall k :: k in commands <==> k in order)
  }

  /** Moving one key from the keys still to visit to the keys visited. */
  lemma TakeKey(keys: set<string>, done: set<string>, remaining: set<string>, g: string)
    requires done == keys - remaining && remaining <= keys && g in remaining
    ensures done + {g} == keys - (remaining - {g}) && remaining - {g} <= keys
  {
  }

  class Shard {
    var commandRegex: map<string, CommandPattern>
    var prefixTestRegex: map<string, TestPattern>
    var commands: map<string, Command>
    /** The keys of `commands` in the order `Object.keys` lists them:
        insertion order. */
    var commandOrder: seq<string>
    var processors: seq<Processor>
    var unprocessedMessages: seq<Message>
    const shardId: int
    const defaultPrefix: string

    function Reg(): Registry
      reads this`commandRegex, this`prefixTestRegex
    {
      Registry(commandRegex, prefixTestRegex)
    }

    function Ctx(db: Database, ext: Collaborators): Context
      reads this`commands, this`processors
    {
      Context(commands, processors, defaultPrefix, db, ext)
    }

    ghost predicate Valid()
      reads this
    {
      ShardInvariant(Reg(), commands, commandOrder)
    }

    /** The constructor registers every stored prefix whose guild falls to
        this shard, in list order. */
    constructor (shardId: int, defaultPrefix: string, prefixList: seq<PrefixRecord>, shardOf: string -> int)
      ensures Valid()
      ensures this.shardId == shardId && this.defaultPrefix == defaultPrefix
      ensures Reg() == RegisterOwned(Registry(map[], map[]), prefixList, shardOf, shardId)
      ensures commands == map[] && commandOrder == [] && processors == [] && unprocessedMessages == []
    {
      this.shardId := shardId;
      this.defaultPrefix := defaultPrefix;
      commandRegex := map[];
      prefixTestRegex := map[];
      commands := map[];
      commandOrder := [];
      processors := [];
      unprocessedMessages := [];
      new;
      var i := 0;
      while i < |prefixList|
        invariant 0 <= i <= |prefixList|
        invariant Reg() == RegisterOwned(Registry(map[], map[]), prefixList[..i], shardOf, shardId)
        invariant Valid()
        invariant commands == map[] && commandOrder == [] && processors == [] && unprocessedMessages == []
      {
        var setting := prefixList[i];
        RegisterOwnedStep(Registry(map[], map[]), prefixList, i, shardOf, shardId);
        if shardOf(setting.guildId) == shardId {
          CreateRegexForGuild(setting.guildId, setting.prefix);
        }
        i := i + 1;
      }
      assert prefixList[..i] == prefixList;
    }

    /** createRegexForGuild: both matchers for the guild, from its prefix. */
    method CreateRegexForGuild(guild: string, prefix: string)
      requires Valid()
      modifies this`commandRegex, this`prefixTestRegex
      ensures Valid()
      ensures Reg() == Register(old(Reg()), guild, prefix)
    {
      var escaped := EscapePrefix(prefix);
      commandRegex := commandRegex[guild := CommandPattern(escaped)];
      prefixTestRegex := prefixTestRegex[guild := TestPattern(escaped)];
      RegisterKeepsConsistent(old(Reg()), guild, prefix);
    }

    /** loadCommand: the command is stored under its name; a new name goes to
        the end of the key order, a known one keeps its place. */
    method LoadCommand(cmd: Command, name: string)
      requires Valid()
      modifies this`commands, this`commandOrder
      ensures Valid()
      ensures commands == old(commands)[name := cmd]
      ensures commandOrder == if name in old(commands) then old(commandOrder) else old(commandOrder) + [name]
    {
      if name !in commands {
        commandOrder := commandOrder + [name];
      }
      commands := commands[name := cmd];
    }

    /** loadProcessor: processors run in the order they were loaded. */
    method LoadProcessor(proc: Processor)
      requires Valid()
      modifies this`processors
      ensures Valid()
      ensures processors == old(processors) + [proc]
    {
      processors := processors + [proc];
    }

    /** getUsageStrings. */
    function GetUsageStrings(prefix: string): string
      reads this
      requires Valid()
    {
      UsageStrings(prefix, commandOrder, commands)
    }

    /** executeCommand: log, run once with the trimmed arguments, then the
        fail reaction and error notice after an error, or the fail reaction
        and the usage under the stored prefix after a result of `true`. */
    method ExecuteCommand(msg: Message, cmdMatch: CommandMatch, db: Database, ext: Collaborators)
      returns (effects: seq<Effect>)
      requires cmdMatch.command in commands
      ensures effects == Execute(Ctx(db, ext), msg, cmdMatch.command, Trim(cmdMatch.rest))
      ensures CommandRuns(effects) == 1
    {
      var command := cmdMatch.command;
      var args := Trim(cmdMatch.rest);
      effects := [CommandLogged(command, args), CommandCalled(command, args)];
      var showUsage := ext.runCommand(command, msg, args);
      if showUsage == Threw {
        effects := effects + [FailReaction, ErrorNotice(ErrorText)];
      } else if showUsage == ReturnedTrue {
        var usage := commands[command].usage;
        var prefix := Shown(Setting(db, msg.guildId, "prefix"));
        effects := effects + [FailReaction, UsageNotice(command, UsageString(prefix, usage))];
      }
      assert effects == Execute(Ctx(db, ext), msg, command, args);
      assert CommandRuns(effects) == 1 by {
        ExecuteFacts(Ctx(db, ext), msg, command, args, FailReaction);
      }
    }

    /** onMessage: the steps Dispatch describes, taken in place. */
    method OnMessage(msg: Message, db: Database, ext: Collaborators) returns (effects: seq<Effect>)
      requires Valid()
      modifies this`commandRegex, this`prefixTestRegex, this`unprocessedMessages
      ensures Valid()
      ensures var s := Dispatch(old(Reg()), old(unprocessedMessages), Ctx(db, ext), msg);
        Reg() == s.registry && unprocessedMessages == s.unprocessed && effects == s.effects
    {
      effects := [];
      if msg.authorIsBot || msg.isDM {
        return;
      }
      var guild := msg.guildId;
      if guild !in prefixTestRegex || guild !in commandRegex {
        unprocessedMessages := unprocessedMessages + [msg];
        CreateRegexForGuild(guild, defaultPrefix);
        return;
      }
      if msg.mentionsBot && Includes(msg.content, "prefix") {
        var prefix := Setting(db, guild, "prefix");
        effects := [SuccessReaction, PrefixNotice(Shown(prefix))];
        return;
      }
      effects := RouteMessage(msg, db, ext);
    }

    /** The rest of onMessage for a guild with matchers (lines 192-216): the
        processors in order, then the command. */
    method RouteMessage(msg: Message, db: Database, ext: Collaborators) returns (effects: seq<Effect>)
      requires Registered(Reg(), msg.guildId)
      ensures effects == Routed(Reg(), Ctx(db, ext), msg)
    {
      var halted;
      effects, halted := RunProcessors(msg, ext);
      if halted {
        return;
      }
      var rest := MatchAndRunCommand(msg, db, ext);
      effects := effects + rest;
    }

    /** Lines 192-205: each processor in order until one returns `true`. */
    method RunProcessors(msg: Message, ext: Collaborators) returns (effects: seq<Effect>, halted: bool)
      ensures halted <==> FirstHalting(processors, msg, ext.runProcessor).Some?
      ensures effects == ProcessorCalls(CalledProcessors(processors, msg, ext.runProcessor))
    {
      ghost var run := ext.runProcessor;
      effects := [];
      var i := 0;
      while i < |processors|
        invariant 0 <= i <= |processors|
        invariant effects == ProcessorCalls(processors[..i])
        invariant forall k :: 0 <= k < i ==> run(processors[k], msg) != ReturnedTrue
      {
        var processor := processors[i];
        var actionTaken := ext.runProcessor(processor, msg);
        ProcessorCallsAppend(processors[..i], processor);
        assert processors[..i + 1] == processors[..i] + [processor];
        effects := effects + [ProcessorCalled(processor)];
        if actionTaken == ReturnedTrue {
          assert FirstHalting(processors, msg, run) == Some(i);
          return effects, true;
        }
        i := i + 1;
      }
      assert processors[..i] == processors;
      assert FirstHalting(processors, msg, run).None?;
      halted := false;
    }

    /** Lines 207-216: run the matched command, or react to a bare prefix. */
    method MatchAndRunCommand(msg: Message, db: Database, ext: Collaborators) returns (effects: seq<Effect>)
      requires Registered(Reg(), msg.guildId)
      ensures effects == MatchAndRun(Reg(), Ctx(db, ext), msg)
    {
      var cmdMatch := MatchCommand(commandRegex[msg.guildId], msg.content);
      if cmdMatch.None? || cmdMatch.value.command !in commands {
        effects := [];
        if MatchTest(prefixTestRegex[msg.guildId], msg.cleanContent) {
          effects := [FailReaction];
        }
        return;
      }
      effects := ExecuteCommand(msg, cmdMatch.value, db, ext);
    }

    /** onGuildDelete: the guild's settings rows and both matchers go. */
    method OnGuildDelete(guild: string, db: Database) returns (db': Database)
      requires Valid()
      modifies this`commandRegex, this`prefixTestRegex
      ensures Valid()
      ensures db' == Destroy(db, guild)
      ensures Reg() == Unregister(old(Reg()), guild)
    {
      db' := Destroy(db, guild);
      commandRegex := commandRegex - {guild};
      prefixTestRegex := prefixTestRegex - {guild};
      UnregisterKeepsConsistent(old(Reg()), guild);
    }

    /** onGuildCreate: a bot farm is left at once; any other guild is greeted
        with the default prefix, gets the default settings and the
        default-prefix matchers. */
    method OnGuildCreate(guild: Guild, db: Database, defaults: GuildSettings)
      returns (db': Database, effects: seq<GuildEffect>)
      requires Valid()
      modifies this`commandRegex, this`prefixTestRegex
      ensures Valid()
      ensures IsBotFarm(guild) ==> db' == db && effects == [LeftGuild(guild.id)] && Reg() == old(Reg())
      ensures !IsBotFarm(guild) ==>
        && effects == [Greeted(guild.id, Greeting(defaultPrefix))]
        && db' == ResetToDefaults(db, guild.id, defaults)
        && Reg() == Register(old(Reg()), guild.id, defaultPrefix)
    {
      if IsBotFarm(guild) {
        db' := db;
        effects := [LeftGuild(guild.id)];
        return;
      }
      effects := [Greeted(guild.id, Greeting(defaultPrefix))];
      db' := ResetToDefaults(db, guild.id, defaults);
      CreateRegexForGuild(guild.id, defaultPrefix);
    }

    /** populateGuildConfigDatabase: the three passes over the guilds and the
        prefix table, with their counters. */
    method PopulateGuildConfigDatabase(guilds: seq<Guild>, db: Database, defaults: GuildSettings)
      returns (db': Database, guildsWithMissingKeys: nat, guildsNotInDatabaseCount: nat)
      requires Valid()
      modifies this`commandRegex, this`prefixTestRegex
      ensures Valid()
      ensures var p := Populate(old(Reg()), db, guilds, defaults);
        && Reg() == p.registry && db' == p.db
        && guildsWithMissingKeys == p.resets && guildsNotInDatabaseCount == p.added
    {
      var afterReset;
      afterReset, guildsWithMissingKeys := ResetMissingKeys(guilds, db, defaults);
      var configs := ValuesOfKey(afterReset, "prefix");
      db', guildsNotInDatabaseCount := AddMissingGuilds(guilds, afterReset, configs, defaults);
      var prefixRecords := ValuesOfKey(db', "prefix");
      RegisterMissingGuilds(prefixRecords);
    }

    /** Lines 416-428: guilds with missing or extra keys are reset. */
    method ResetMissingKeys(guilds: seq<Guild>, db: Database, defaults: GuildSettings)
      returns (db': Database, guildsWithMissingKeys: nat)
      ensures Tally(db', guildsWithMissingKeys) == ResetPass(db, guilds, defaults)
    {
      var tally := Tally(db, 0);
      var i := 0;
      while i < |guilds|
        invariant 0 <= i <= |guilds|
        invariant ResetPass(db, guilds[..i], defaults) == tally
      {
        ResetPassStep(db, guilds, i, defaults, tally);
        var id := guilds[i].id;
        var size := SettingsSize(tally.db, id);
        if size != |defaults.Keys| {
          tally := Tally(ResetToDefaults(tally.db, id, defaults), tally.count + 1);
        }
        i := i + 1;
      }
      assert guilds[..i] == guilds;
      db', guildsWithMissingKeys := tally.db, tally.count;
    }

    /** Lines 433-445: guilds missing from the prefix table, as read before
        the loop, get the defaults. */
    method AddMissingGuilds(guilds: seq<Guild>, db: Database, configs: map<string, string>, defaults: GuildSettings)
      returns (db': Database, guildsNotInDatabaseCount: nat)
      ensures Tally(db', guildsNotInDatabaseCount) == AddPass(db, guilds, configs, defaults)
    {
      db' := db;
      guildsNotInDatabaseCount := 0;
      var i := 0;
      while i < |guilds|
        invariant 0 <= i <= |guilds|
        invariant AddPass(db, guilds[..i], configs, defaults) == Tally(db', guildsNotInDatabaseCount)
      {
        AddPassStep(db, guilds, i, configs, defaults);
        if guilds[i].id !in configs {
          db' := ResetToDefaults(db', guilds[i].id, defaults);
          guildsNotInDatabaseCount := guildsNotInDatabaseCount + 1;
        }
        i := i + 1;
      }
      assert guilds[..i] == guilds;
    }

    /** Lines 449-458: matchers for each guild with a stored prefix whose id
        was not in the command table when the pass began (line 455 tests that
        table twice). */
    method RegisterMissingGuilds(prefixRecords: map<string, string>)
      requires Valid()
      modifies this`commandRegex, this`prefixTestRegex
      ensures Valid()
      ensures Reg() == RegisterMissing(old(Reg()), prefixRecords)
    {
      var existingCommandRegexes := commandRegex.Keys;
      var remaining := prefixRecords.Keys;
      ghost var done: set<string> := {};
      RestrictAll(prefixRecords, old(Reg()));
      while remaining != {}
        invariant Valid()
        invariant done == prefixRecords.Keys - remaining && remaining <= prefixRecords.Keys
        invariant Reg() == RegisterMissing(old(Reg()), Restrict(prefixRecords, done))
        decreases |remaining|
      {
        var guildId :| guildId in remaining;
        RegisterMissingStep(old(Reg()), prefixRecords, done, guildId);
        if guildId !in existingCommandRegexes || guildId !in existingCommandRegexes {
          CreateRegexForGuild(guildId, prefixRecords[guildId]);
        }
        TakeKey(prefixRecords.Keys, done, remaining, guildId);
        remaining := remaining - {guildId};
        done := done + {guildId};
      }
      assert done == prefixRecords.Keys;
    }

    /** Lines 132-136: the bot farms the shard leaves, in order. */
    method LeaveBotFarms(guilds: seq<Guild>) returns (left: seq<string>)
      ensures left == FarmIds(guilds)
    {
      left := [];
      var i := 0;
      while i < |guilds|
        invariant 0 <= i <= |guilds|
        invariant left == FarmIds(guilds[..i])
      {
        FarmIdsStep(guilds, i);
        if IsBotFarm(guilds[i]) {
          left := left + [guilds[i].id];
        }
        i := i + 1;
      }
      assert guilds[..i] == guilds;
    }

    /** Lines 146-148: a for-of over the buffer, which onMessage may extend
        while the loop runs. */
    method ReplayUnprocessed(db: Database, ext: Collaborators) returns (effects: seq<Effect>)
      requires Valid()
      modifies this`commandRegex, this`prefixTestRegex, this`unprocessedMessages
      ensures Valid()
      ensures var r := ReplayFrom(old(Reg()), old(unprocessedMessages), 0, Ctx(db, ext));
        Reg() == r.registry && unprocessedMessages == r.unprocessed && effects == r.effects
    {
      ghost var ctx := Ctx(db, ext);
      ghost var start := ReplayFrom(Reg(), unprocessedMessages, 0, ctx);
      effects := [];
      var i := 0;
      while i < |unprocessedMessages|
        invariant Valid()
        invariant 0 <= i <= |unprocessedMessages|
        invariant var r := ReplayFrom(Reg(), unprocessedMessages, i, ctx);
          r.registry == start.registry && r.unprocessed == start.unprocessed && effects + r.effects == start.effects
        decreases Pending(Reg(), unprocessedMessages[i..]), |unprocessedMessages| - i
      {
        ghost var before := effects;
        var handled := ReplayOne(i, db, ext);
        effects := effects + handled;
        ghost var rest := ReplayFrom(Reg(), unprocessedMessages, i + 1, ctx).effects;
        assert before + (handled + rest) == effects + rest;
        i := i + 1;
      }
      ReplayUnfold(Reg(), unprocessedMessages, i, ctx);
    }

    /** One turn of the replay loop: the message at position `i` goes through
        onMessage. */
    method ReplayOne(i: nat, db: Database, ext: Collaborators) returns (handled: seq<Effect>)
      requires Valid() && i < |unprocessedMessages|
      modifies this`commandRegex, this`prefixTestRegex, this`unprocessedMessages
      ensures Valid() && i + 1 <= |unprocessedMessages|
      ensures Pending(Reg(), unprocessedMessages[i + 1..]) < Pending(old(Reg()), old(unprocessedMessages)[i..])
        || (Pending(Reg(), unprocessedMessages[i + 1..]) == Pending(old(Reg()), old(unprocessedMessages)[i..])
            && |unprocessedMessages| - (i + 1) < |old(unprocessedMessages)| - i)
      ensures var r := ReplayFrom(Reg(), unprocessedMessages, i + 1, Ctx(db, ext));
        ReplayFrom(old(Reg()), old(unprocessedMessages), i, Ctx(db, ext)) == Step(r.registry, r.unprocessed, handled + r.effects)
    {
      ReplayStepDecreases(Reg(), unprocessedMessages, i, Ctx(db, ext));
      ReplayUnfold(Reg(), unprocessedMessages, i, Ctx(db, ext));
      handled := OnMessage(unprocessedMessages[i], db, ext);
    }

    /** onReady: leave the bot farms, reconcile the remaining guilds with the
        database, then replay the buffer through onMessage; the buffer is
        not cleared afterwards. */
    method OnReady(guilds: seq<Guild>, db: Database, defaults: GuildSettings, ext: Collaborators)
      returns (left: seq<string>, db': Database, effects: seq<Effect>)
      requires Valid()
      modifies this`commandRegex, this`prefixTestRegex, this`unprocessedMessages
      ensures Valid()
      ensures left == FarmIds(guilds)
      ensures var p := Populate(old(Reg()), db, NonFarms(guilds), defaults);
        var r := ReplayFrom(p.registry, old(unprocessedMessages), 0, Ctx(p.db, ext));
        && db' == p.db
        && Reg() == r.registry && unprocessedMessages == r.unprocessed && effects == r.effects
    {
      left := LeaveBotFarms(guilds);
      var resets, added;
      db', resets, added := PopulateGuildConfigDatabase(NonFarms(guilds), db, defaults);
      effects := ReplayUnprocessed(db', ext);
    }
  }
}
