# SafetyJim shard dispatcher and kick command, in Dafny

This project models the core of SafetyJim, a Discord moderation bot: the
`Shard` class that routes chat messages to commands and message processors,
and the `kick` command.

The shard keeps two regular expressions per guild, built from the guild's
command prefix:
- a command matcher, which captures the command name and its arguments;
- a looser prefix test.

It also keeps:
- the loaded commands, by name, and the message processors, in load order;
- a buffer of messages that arrived for guilds without matchers.

The model follows the source closely:
- `Shards.Shard` keeps these tables as fields. Its methods update them in
  place: `createRegexForGuild`, `loadCommand`, `loadProcessor`,
  `onMessage`, `executeCommand`, `onGuildCreate`, `onGuildDelete`, `onReady`
  and `populateGuildConfigDatabase`.
- Each method is proved to leave exactly the state a pure definition
  describes.
- Properties are proved about those definitions.

Modules:
- `Text`: JavaScript whitespace, `trim`, `split`, `join` and `includes`.
- `Escape`: escaping a prefix before it goes into a pattern, and reading the
  escaped pattern back.
- `Matchers`: the two regular expressions as explicit matchers over the
  escaped pattern source the registry stores.
- `Usage`: usage strings.
- `Store`: the settings table as a value.
- `Router`: one message through `onMessage`.
- `Replay`: replaying the buffer on ready.
- `Reconcile`: the bot-farm test, the constructor's registration of stored
  prefixes, and the three passes of startup reconciliation.
- `Shards`: the class.
- `Kick`: the kick command.

Processors, command handlers, the database, Discord channels and guild
member lookups are collaborators the shard calls but does not define. Each
one is a parameter:
- a processor or command run is an oracle returning `true`, another value,
  or an error;
- the settings table is a value passed in and out.

Some behaviours of the code differ from what a reader might expect. The
model follows the code:
- A command needs whitespace between the prefix and the command name. The
  command expression is `^prefix\s+([^\s]+)…`, so `!kick` with prefix `!`
  matches nothing (`Matchers.NoSpaceAfterPrefix`).
- With prefix `!`, the message `!unknowncmd` gets no fail reaction. The test
  expression `^prefix[\s]*( .*)?$` needs a space before any further text. One
  might expect a fail reaction here; the code gives none.
- The buffer of unprocessed messages is never cleared. A replayed message for
  a guild that still has no matchers is appended again and replayed later in
  the same loop (`Replay.ReplayFrom`).
- Reconciliation never replaces a command matcher that already exists. A
  guild that got default-prefix matchers while the shard was starting keeps
  them even when its stored prefix differs (`Reconcile.FallbackSurvives`).
- Line 455 tests the command table twice and never tests the test table.
  Because both tables always hold the same guilds
  (`Router.RegisteredIffCommandEntry`), this is harmless, and the model keeps
  the test as written.

## Model

| member | source | states |
|---|---|---|
| Text.TrimStart | src/safetyjim/shard.ts:359 | the result is a suffix of the input, everything removed is whitespace, and the result does not start with whitespace |
| Text.TrimEnd | src/safetyjim/shard.ts:359 | the result is a prefix of the input, everything removed is whitespace, and the result does not end with whitespace |
| Text.Token | src/safetyjim/shard.ts:86 | `[^\s]+` takes the longest run of non-whitespace at the start |
| Text.IndexOf | src/safetyjim/shard.ts:172 | `includes`/`indexOf`: gives the first occurrence of the separator, and gives none exactly when the separator occurs nowhere |
| Text.Split | src/safetyjim/shard.ts:92 | `split` gives at least one part, and no part contains the separator |
| Text.JoinSplit | src/commands/kick/kick.ts:16 | joining the parts of a split with the same separator gives the text back |
| Text.JoinAppend | src/safetyjim/shard.ts:105 | joining one more part appends the separator and that part |
| Escape.EscapePrefix | src/safetyjim/shard.ts:85 | the escaped prefix is as long as the prefix plus one backslash per special character |
| Escape.UnescapeEscape | src/safetyjim/shard.ts:85-87 | reading the escaped pattern back as literal atoms gives the original prefix, whatever characters it holds |
| Escape.EscapePlain | src/safetyjim/shard.ts:85 | a prefix with no special character is embedded unchanged |
| Escape.EscapeConcat | src/safetyjim/shard.ts:85 | the replacement is global: each character is escaped on its own |
| Escape.EscapeInjective | src/safetyjim/shard.ts:85 | two different prefixes never give the same pattern |
| Matchers.MatchCommandCompiled | src/safetyjim/shard.ts:86 | the compiled command expression matches through the prefix literally, letters in any case |
| Matchers.MatchCommandSound | src/safetyjim/shard.ts:86 | every match is the prefix, at least one whitespace, a non-empty command without whitespace, optional whitespace, then the argument text |
| Matchers.MatchCommandComplete | src/safetyjim/shard.ts:86 | every text of that shape matches, capturing that command and that argument text |
| Matchers.MatchCommandOfShape | src/safetyjim/shard.ts:86 | the same completeness, stated for any text that has the command shape for the prefix |
| Matchers.TestTailShaped | src/safetyjim/shard.ts:87 | the backtracking reading of `[\s]*( .*)?$` accepts exactly the texts of its declarative reading |
| Matchers.MatchTestCompiled | src/safetyjim/shard.ts:87 | the test expression matches if and only if the text starts with the prefix and the rest has the `[\s]*( .*)?$` shape |
| Matchers.NoSpaceAfterPrefix | src/safetyjim/shard.ts:86-87 | with no whitespace right after the prefix, neither expression matches |
| Usage.UsageLines | src/safetyjim/shard.ts:96-99 | an array usage gives one formatted line per entry, in order |
| Usage.UsageLineOfPair | src/safetyjim/shard.ts:92-93 | `syntax - description` is shown as `` `prefix syntax` - description `` |
| Usage.UsageLineWithoutSeparator | src/safetyjim/shard.ts:92-93 | an entry with no ` - ` shows `undefined` as its description |
| Usage.SingleEntryArray | src/safetyjim/shard.ts:90-99 | an array with one entry reads the same as that entry given as a string |
| Usage.UsageStringAppend | src/safetyjim/shard.ts:96-99 | one more array entry adds a newline and that entry's line at the end |
| Shards.UsageTexts | src/safetyjim/shard.ts:102-105 | getUsageStrings formats each command's usage under the prefix, one per command, in key order |
| Shards.UsageStringsAfterLoad | src/safetyjim/shard.ts:102-110 | after a new command is loaded, getUsageStrings gains a newline and that command's usage at the end |
| Store.ValuesOfKey | src/safetyjim/shard.ts:437 | `getValuesOfKey('prefix')` holds a guild exactly when the guild has a row for the key, with that row's value |
| Store.ResetToDefaults | src/safetyjim/shard.ts:420-425 | destroying a guild's rows and creating its settings leaves the defaults for that guild, and no other guild changes |
| Store.Destroy | src/safetyjim/shard.ts:339-343 | destroying a guild's rows removes that guild only |
| Router.Register | src/safetyjim/shard.ts:84-88 | createRegexForGuild sets both of the guild's matchers from its prefix and leaves every other guild's matchers alone |
| Router.Unregister | src/safetyjim/shard.ts:344-345 | both of the guild's matchers are deleted, and no other entry changes |
| Router.RegisterKeepsConsistent | src/safetyjim/shard.ts:84-88 | registering keeps both tables on the same guilds, with the same escaped prefix for each guild |
| Router.UnregisterKeepsConsistent | src/safetyjim/shard.ts:344-345 | deleting keeps the two tables paired |
| Router.UnregisterUndoesRegister | src/safetyjim/shard.ts:344-345 | deleting a guild undoes registering it |
| Router.RegisteredIffCommandEntry | src/safetyjim/shard.ts:452-455 | in a paired registry, the line-165 test (both matchers present) agrees with the line-455 test (command table only) |
| Router.RegisteredMatcherUsesPrefix | src/safetyjim/shard.ts:84-88 | after registration, the guild's command matcher matches a text if and only if it has the command shape for that prefix, capturing the command and argument text of that shape; the test matcher matches if and only if the text starts with the prefix and the rest has the test shape |
| Router.FirstHalting | src/safetyjim/shard.ts:192-205 | the chain halts at the first processor that returns exactly `true`, and none before it did |
| Router.ProcessorCalls | src/safetyjim/shard.ts:192-196 | one call per processor, in order |
| Router.HaltingOnlySeesTrue | src/safetyjim/shard.ts:195-203 | only a result of exactly `true` matters: runs that agree on which processors return `true` halt at the same place |
| Router.Unmatched | src/safetyjim/shard.ts:209-213 | with no command to run, the only possible reaction is a fail reaction |
| Router.IgnoredMessage | src/safetyjim/shard.ts:158-160 | messages from bots or DM channels change nothing and do nothing |
| Router.BufferedMessage | src/safetyjim/shard.ts:165-170 | a message for a guild without matchers is buffered, the default-prefix matchers are created, and nothing runs |
| Router.PrefixQueryShortCircuits | src/safetyjim/shard.ts:172-190 | a mention with `prefix` in it is answered with the stored prefix, before any processor or command runs |
| Router.DispatchState | src/safetyjim/shard.ts:155-217 | only a guild without matchers changes the registry or the buffer |
| Router.ExecuteFacts | src/safetyjim/shard.ts:357-404 | executeCommand runs its command exactly once with the given arguments; a usage notice appears if and only if the command returned exactly `true`; the error notice, carrying the error text, appears if and only if it threw; a fail reaction appears if and only if it returned `true` or threw |
| Router.MatchAndRunFacts | src/safetyjim/shard.ts:207-216 | at most one command runs; it is the one the matcher captured, with the trimmed arguments |
| Router.ProcessorHaltEndsDispatch | src/safetyjim/shard.ts:201-204 | once a processor returns `true`, only processors up to it were called and no command runs |
| Router.RoutedFacts | src/safetyjim/shard.ts:192-216 | apart from processor calls, every effect comes from matching, and only when no processor halted |
| Router.AtMostOneCommand | src/safetyjim/shard.ts:155-217 | a message runs at most one command |
| Router.CommandRunsIff | src/safetyjim/shard.ts:207-216 | a command runs with given arguments if and only if the message passes every earlier step, no processor halts, and the matcher captures that registered name with those arguments once trimmed |
| Router.UnmatchedCommand | src/safetyjim/shard.ts:207-213 | an unmatched or unknown command gives only the processor calls, then a fail reaction exactly when the clean text passes the test matcher |
| Router.UsageUsesStoredPrefix | src/safetyjim/shard.ts:388-403 | a usage notice follows only a `true` result, and shows the usage under the prefix stored in the database |
| Router.MatchAndRunIgnoresProcessors | src/safetyjim/shard.ts:207-216 | command matching never reads the processor runner |
| Router.AftermathIgnoresProcessors | src/safetyjim/shard.ts:374-403 | what follows a command run depends only on the commands, the database and the command runner |
| Router.ThrowingProcessorIsNotAnAction | src/safetyjim/shard.ts:195-199 | a processor that throws is treated like one that returned any value other than `true` |
| Router.DispatchKeepsConsistent | src/safetyjim/shard.ts:165-168 | routing a message keeps the two matcher tables paired |
| Router.PrefixedCommandRuns | src/safetyjim/shard.ts:86 | for any prefix, pattern syntax included, the prefix plus whitespace plus a registered command runs that command with the trimmed argument text |
| Replay.Pending | src/safetyjim/shard.ts:146-148 | the count of messages that would be buffered again never exceeds the buffer length |
| Replay.ReplayStepDecreases | src/safetyjim/shard.ts:146-148 | each replayed message lowers that count, or keeps it and leaves one fewer message to visit, so the loop over the growing array ends |
| Replay.DispatchEffectsIgnoreBuffer | src/safetyjim/shard.ts:155-217 | what a message does never depends on the buffer's contents |
| Replay.ReplayKeepsBuffer | src/safetyjim/shard.ts:146-148 | replay only appends to the buffer and only adds matchers |
| Replay.ReplayKeepsConsistent | src/safetyjim/shard.ts:146-148 | replay keeps the matcher tables paired |
| Replay.ReplayLeavesNothingPending | src/safetyjim/shard.ts:146-148 | after replay, no message visited would be buffered again |
| Replay.QuietReplay | src/safetyjim/shard.ts:146-148 | when every buffered guild has matchers, replay handles each buffered message once, in arrival order, and changes neither buffer nor registry |
| Reconcile.BotFarmBoundaries | src/safetyjim/shard.ts:406-411 | the three listed guilds are never farms; a guild is a farm exactly when it has more than 20 bots; more bots keep a farm a farm |
| Reconcile.NonFarms | src/safetyjim/shard.ts:132-136 | the guilds kept are exactly the listed guilds that are not bot farms |
| Reconcile.FarmIds | src/safetyjim/shard.ts:132-136 | the guilds left are exactly the bot farms |
| Reconcile.LastOwnedPrefix | src/safetyjim/shard.ts:45-49 | a prefix record is found for a guild if and only if the list holds a record for it and the shard owns it; the prefix found is that of the last record for the guild |
| Reconcile.RegisterOwnedLookup | src/safetyjim/shard.ts:45-49 | after construction, a guild has matchers exactly when the shard owns a record for it; the last such record's prefix wins |
| Reconcile.RegisterOwnedConsistent | src/safetyjim/shard.ts:45-49 | construction keeps the matcher tables paired |
| Reconcile.ResetPassFacts | src/safetyjim/shard.ts:416-428 | after the first pass every listed guild has a complete row set; a guild with the wrong row count now holds the defaults; other guilds are untouched; the count is zero if and only if every guild was complete |
| Reconcile.AddPassFacts | src/safetyjim/shard.ts:435-445 | a listed guild missing from the prefix table now holds the defaults; others are untouched; the count is zero if and only if every guild was present |
| Reconcile.RegisterMissing | src/safetyjim/shard.ts:451-458 | every guild with a stored prefix ends up with a command matcher, and test matchers are added only for guilds that had no command matcher |
| Reconcile.RegisterMissingFacts | src/safetyjim/shard.ts:451-458 | existing command matchers survive; a guild without one gets matchers for its stored prefix |
| Reconcile.RegisterMissingConsistent | src/safetyjim/shard.ts:451-458 | the third pass keeps the tables paired and registers every guild with a stored prefix |
| Reconcile.RegisterMissingStep | src/safetyjim/shard.ts:454-457 | visiting one more prefix record registers it only when its guild had no command matcher before the pass, in any visiting order |
| Reconcile.PopulateFacts | src/safetyjim/shard.ts:413-459 | after reconciliation every listed guild has a complete row set, a stored prefix and both matchers |
| Reconcile.FallbackSurvives | src/safetyjim/shard.ts:452-457 | a default-prefix matcher made while the shard was starting survives reconciliation |
| Shards.Shard.constructor | src/safetyjim/shard.ts:45-49 | the shard starts with the matchers of the prefix records it owns, in list order, and with nothing else |
| Shards.Shard.CreateRegexForGuild | src/safetyjim/shard.ts:84-88 | the registry becomes Register of the old one, and the invariant holds |
| Shards.Shard.LoadCommand | src/safetyjim/shard.ts:108-110 | the command is stored under its name; a new name goes last in key order, and a known one keeps its place |
| Shards.Shard.LoadProcessor | src/safetyjim/shard.ts:112-114 | the processor is appended, nothing else changes, and the shard's invariant is kept |
| Shards.Shard.ExecuteCommand | src/safetyjim/shard.ts:357-404 | the effects are those Execute defines, with exactly one command run |
| Shards.Shard.OnMessage | src/safetyjim/shard.ts:155-217 | the new registry, buffer and effects are those Dispatch defines |
| Shards.Shard.RouteMessage | src/safetyjim/shard.ts:192-216 | processors, then the command, as Routed defines |
| Shards.Shard.RunProcessors | src/safetyjim/shard.ts:192-205 | the processors called are those up to the first that returns `true`, or all of them |
| Shards.Shard.MatchAndRunCommand | src/safetyjim/shard.ts:207-216 | the matched command runs, or a fail reaction when only the test matcher matches |
| Shards.Shard.OnGuildDelete | src/safetyjim/shard.ts:337-349 | the guild's rows and both matchers are removed |
| Shards.Shard.OnGuildCreate | src/safetyjim/shard.ts:262-283 | a bot farm is left and nothing else happens; any other guild is greeted with the default prefix and gets the default settings and matchers |
| Shards.Shard.PopulateGuildConfigDatabase | src/safetyjim/shard.ts:413-459 | the state and both counters are those Populate defines |
| Shards.Shard.ResetMissingKeys | src/safetyjim/shard.ts:416-428 | the first pass, loop by loop, as ResetPass |
| Shards.Shard.AddMissingGuilds | src/safetyjim/shard.ts:435-445 | the second pass, against the prefix table read before the loop |
| Shards.Shard.RegisterMissingGuilds | src/safetyjim/shard.ts:451-458 | the third pass, with the line-455 test as written, over the records in any order |
| Shards.Shard.LeaveBotFarms | src/safetyjim/shard.ts:132-136 | the guilds left are the bot farms, in order |
| Shards.Shard.ReplayUnprocessed | src/safetyjim/shard.ts:146-148 | the for-of over the growing buffer ends in the state ReplayFrom defines |
| Shards.Shard.ReplayOne | src/safetyjim/shard.ts:147 | one turn of the replay loop, with the termination measure decreasing |
| Shards.Shard.OnReady | src/safetyjim/shard.ts:132-148 | leave the farms, reconcile the remaining guilds, then replay the buffer |
| Kick.Run | src/commands/kick/kick.ts:10-13 | run never returns `true` and never throws |
| Kick.RouterShowsNothingAfterKick | src/commands/kick/kick.ts:10-13 | after kick runs, the router adds no fail reaction, usage or error notice |
| Kick.ReasonAfterFirstSpace | src/commands/kick/kick.ts:16 | the reason is the text after the first space, or the default when there is none |
| Kick.ReasonKeepsText | src/commands/kick/kick.ts:16 | a mention followed by a space and non-empty text gives exactly that text as the reason |
| Kick.RunAsync | src/commands/kick/kick.ts:15-51 | no mention gives only the mention reply; otherwise a missing, unkickable or not-outranked member gives only the not-kickable reply; otherwise the member is sent the direct message and recorded as kicked with the reason, leaves the guild if and only if the direct message is delivered, and the mod-log step follows |
| Kick.RunAsyncOn | src/commands/kick/kick.ts:15-16 | when `args` holds anything but a string, `runAsync` does nothing at all; on a string it takes the decisions of RunAsync |
| Kick.RoutedKickDoesNothing | src/safetyjim/shard.ts:376 | as the router calls it, kick never replies, kicks, records or logs; with the parameters aligned it takes exactly the decisions of RunAsync |
| Kick.RoutedKickMissesAKick | src/commands/kick/kick.ts:10 | for every argument text there is an invocation that should kick, and the call as written does nothing |
| Kick.ModLogStep | src/commands/kick/kick.ts:40-64 | no mod-log output without an active configuration; the channel notice if and only if the channel is unknown or not a text channel; otherwise an embed with the four fields in order |
| Kick.KickUsageLine | src/commands/kick/kick.ts:5 | kick's usage is shown as `` `prefix kick @user [reason]` - Kicks the user with the specified reason `` |

## Findings

| source | as written | input that shows it | evidently intended | confidence | as-written member | corrected member |
|---|---|---|---|---|---|---|
| src/commands/kick/kick.ts:10 | the router calls `run(this, this.jim, msg, args)` (src/safetyjim/shard.ts:376), but kick declares `run(bot, msg, args)`; its `args` receives the message, and `args.split` on line 16 throws inside the async body | any kick invocation, such as `!kick @spammer spam` naming a kickable member the author outranks | `args` is the argument text and the member is kicked | medium, not executed: the command interface declaration is not part of this model | Kick.RoutedKickDoesNothing, Kick.RoutedKickMissesAKick | Kick.RunAsync |

## Left out

- Discord client construction, login, the ready subject and the event wiring (shard.ts lines 51-82, 150-151) are transport with no decisions of their own.
- Asynchrony: every handler is modelled as running to completion before the next event. Interleaving of awaits between concurrent events is not modelled.
- Logging, metrics, the invite link, `setGame` and timing are not modelled; they do not affect state.
- `onGuildMemberAdd`, `onGuildMemberRemove`, `onMessageDelete`, `onReaction` and `onReactionDelete` are outside the modelled core.
- Embed colours, avatars, embed titles and timestamps are left out. Sent messages are effects that carry their text or their usage string.
- The `i` flag folds ASCII letters only. Unicode case folding is not modelled.
- `Object.keys` orders integer-like keys first. The model keeps insertion order for all command names.
- The database code, including `createGuildSettings` and `possibleKeys`, is not part of this model. `createGuildSettings` is modelled as writing the given default row set.
- Shards.Shard.ResetMissingKeys: compares the row count with the number of default keys, standing in for `possibleKeys.length`. The two agree when the defaults hold every possible key.
- `Utils.findShardIdFromGuildId` is a parameter of the constructor (`shardOf`).
- Shards.Shard.OnReady: reconciles the guilds that are not bot farms. The source iterates `client.guilds` after awaiting each `leave()`, so the guilds left are assumed gone by then.
- Shards.Shard.OnReady: a database error inside `populateGuildConfigDatabase` is caught and logged by the source. The model assumes the database calls succeed.
- Shards.Shard.OnReady: `generateInvite` (shard.ts line 118), `guild.leave()` (line 134) and `setGame` (line 144) are awaited without a catch. If any of them rejects, the source's `onReady` stops there. After a rejected invite or leave call, nothing is reconciled. After any of the three, the buffered messages are never replayed. The model assumes all three succeed, so it always reconciles and replays. Unlike `onGuildCreate`, which catches a failed `leave()`, `onReady` does not skip a failed leave.
- Shards.Shard.OnGuildCreate: the `leave()` failure that the source catches and logs is not modelled.
- Failures to send a message or a reaction are not modelled, except the direct message to a kicked member.
- Router.DispatchState: commands and processors are oracles returning only their outcome. In the source they receive the shard and the client (shard.ts lines 196 and 376), so they could re-register matchers through the public `createRegexForGuild` or change settings. The model assumes they change neither the matcher tables nor the database.
- Router.UsageUsesStoredPrefix: the source reads the prefix after the command has run (shard.ts line 390). Because commands are assumed not to change the settings, the model reads it from the database as it was before the run.
- Shards.Shard.OnMessage: rests on the same assumption. Commands and processors do not touch the shard's tables or the settings.
- `updateDiscordBotLists` (shard.ts lines 280 and 346) posts guild counts to bot-list sites. Like metrics, it changes no state the model holds.
- Kick.RunAsync: the kick's Discord and database calls (`member.send`, `member.kick`, `createUserKick`, `logChannel.send`) are foreign. The outcome names what they are given. The prefix read on line 41 is unused by the source and is not modelled.
- Kick.RunAsync: `comparePositionTo` is an input on the member, the author's rank against it, because role ordering is Discord's.
- Kick.RunAsync: the removal waits for the direct message (kick.ts lines 35-36), but the kick record and the mod-log step do not. A member who refuses direct messages is recorded and logged as kicked but stays in the guild (`removed` is false).
- Kick.RunAsync: models kick with its parameters aligned with the router's call. As written, the router's call binds the message to `args`, so kick does nothing (see Findings).
