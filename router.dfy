// The decision the shard takes for each incoming message (onMessage,
// shard.ts lines 155-218, and executeCommand, lines 357-404), stated as
// functions over the shard's registry and buffer. The Shard class in
// shard.dfy performs the same steps in place and is proved to agree.

module Router {
  import opened Wrappers
  import opened Text
  import opened Matchers
  import opened Usage
  import opened Store

  /** The parts of a Discord message the router reads. */
  datatype Message = Message(
    authorIsBot: bool,    // msg.author.bot
    isDM: bool,           // msg.channel.type === 'dm'
    guildId: string,      // msg.guild.id
    content: string,      // msg.content
    cleanContent: string, // msg.cleanContent
    mentionsBot: bool)    // msg.isMentioned(client.user)

  /** A registered message processor; what it does is its own business. */
  datatype Processor = Processor(name: string)

  /** A registered command: its usage text (its `run` is external). */
  datatype Command = Command(usage: Usage)

  /** What a processor's `onMessage` or a command's `run` gave back: exactly
      `true`, any other value, or a thrown error. */
  datatype Outcome = ReturnedTrue | ReturnedOther | Threw

  /** Calls into code the router does not contain. Each gives back only its
      outcome: a command or processor is taken not to change the matcher
      tables or the settings, although the source hands it the shard. */
  datatype Collaborators = Collaborators(
    runProcessor: (Processor, Message) -> Outcome,
    runCommand: (string, Message, string) -> Outcome)

  /** What the shard reads but does not change while it routes a message. */
  datatype Context = Context(
    commands: map<string, Command>,
    processors: seq<Processor>,
    defaultPrefix: string,
    db: Database,
    ext: Collaborators)

  /** The two matcher tables, keyed by guild id. */
  datatype Registry = Registry(
    commandRegex: map<string, CommandPattern>,
    prefixTestRegex: map<string, TestPattern>)

  /** What the shard does towards Discord and the database, in order. */
  datatype Effect =
    | SuccessReaction
    | PrefixNotice(prefix: string)              // "This guild's prefix is: <prefix>"
    | ProcessorCalled(processor: Processor)
    | FailReaction
    | CommandLogged(command: string, args: string)
    | CommandCalled(command: string, args: string)
    | ErrorNotice(text: string)                 // ErrorText
    | UsageNotice(command: string, text: string)

  /** The outcome of routing one message: the new registry and buffer, and
      the effects. */
  datatype Step = Step(registry: Registry, unprocessed: seq<Message>, effects: seq<Effect>)

  const ErrorText: string := "There was an error running your command, this incident has been logged."

  /** Both matchers exist for the guild (the test on line 165 fails). */
  predicate Registered(reg: Registry, guild: string) {
    guild in reg.prefixTestRegex && guild in reg.commandRegex
  }

  /** Both tables have the same guilds, and a guild's two matchers embed the
      same escaped prefix. */
  ghost predicate Consistent(reg: Registry) {
    && reg.commandRegex.Keys == reg.prefixTestRegex.Keys
    && forall g :: g in reg.commandRegex ==>
         reg.commandRegex[g].escapedPrefix == reg.prefixTestRegex[g].escapedPrefix
  }

  /** `createRegexForGuild(guild, prefix)`: both entries replaced. */
  function Register(reg: Registry, guild: string, prefix: string): (r: Registry)
    ensures Registered(r, guild)
    ensures r.commandRegex[guild] == CompileCommand(prefix) && r.prefixTestRegex[guild] == CompileTest(prefix)
    ensures r.commandRegex.Keys == reg.commandRegex.Keys + {guild}
    ensures r.prefixTestRegex.Keys == reg.prefixTestRegex.Keys + {guild}
    ensures forall g :: g in reg.commandRegex && g != guild ==> r.commandRegex[g] == reg.commandRegex[g]
    ensures forall g :: g in reg.prefixTestRegex && g != guild ==> r.prefixTestRegex[g] == reg.prefixTestRegex[g]
  {
    Registry(reg.commandRegex[guild := CompileCommand(prefix)],
             reg.prefixTestRegex[guild := CompileTest(prefix)])
  }

  /** `delete commandRegex[id]; delete prefixTestRegex[id]` (onGuildDelete). */
  function Unregister(reg: Registry, guild: string): (r: Registry)
    ensures !Registered(r, guild) && guild !in r.commandRegex && guild !in r.prefixTestRegex
    ensures r.commandRegex.Keys == reg.commandRegex.Keys - {guild}
    ensures r.prefixTestRegex.Keys == reg.prefixTestRegex.Keys - {guild}
    ensures forall g :: g in r.commandRegex ==> r.commandRegex[g] == reg.commandRegex[g]
    ensures forall g :: g in r.prefixTestRegex ==> r.prefixTestRegex[g] == reg.prefixTestRegex[g]
  {
    Registry(reg.commandRegex - {guild}, reg.prefixTestRegex - {guild})
  }

  lemma RegisterKeepsConsistent(reg: Registry, guild: string, prefix: string)
    requires Consistent(reg)
    ensures Consistent(Register(reg, guild, prefix))
  {
  }

  lemma UnregisterKeepsConsistent(reg: Registry, guild: string)
    requires Consistent(reg)
    ensures Consistent(Unregister(reg, guild))
  {
  }

  /** Deleting a guild undoes registering it: the other guilds' matchers are
      as they were, whatever the guild had before. */
  lemma UnregisterUndoesRegister(reg: Registry, guild: string, prefix: string)
    ensures Unregister(Register(reg, guild, prefix), guild) == Unregister(reg, guild)
  {
    assert (reg.commandRegex[guild := CompileCommand(prefix)]) - {guild} == reg.commandRegex - {guild};
    assert (reg.prefixTestRegex[guild := CompileTest(prefix)]) - {guild} == reg.prefixTestRegex - {guild};
  }

  /** In a consistent registry the test on line 165 (`!testRegex || !cmdRegex`)
      and the one on line 455 (the command table, twice) agree. */
  lemma RegisteredIffCommandEntry(reg: Registry, guild: string)
    requires Consistent(reg)
    ensures Registered(reg, guild) <==> guild in reg.commandRegex
  {
  }

  /** After registration the guild's command matcher accepts exactly the
      texts that have the command shape for that prefix, whatever characters
      the prefix holds. */
  lemma RegisteredMatcherUsesPrefix(reg: Registry, guild: string, prefix: string, content: string)
    ensures var r := Register(reg, guild, prefix);
      && (MatchCommand(r.commandRegex[guild], content).Some? ==>
            CommandShaped(content, prefix, MatchCommand(r.commandRegex[guild], content).value.command,
                          MatchCommand(r.commandRegex[guild], content).value.rest))
      && (forall command, rest :: CommandShaped(content, prefix, command, rest) ==>
            MatchCommand(r.commandRegex[guild], content) == Some(CommandMatch(command, rest)))
      && (MatchTest(r.prefixTestRegex[guild], content) <==>
            (StartsWithIgnoringCase(content, prefix) && TestShaped(content[|prefix|..])))
  {
    if MatchCommand(CompileCommand(prefix), content).Some? {
      MatchCommandSound(prefix, content);
    }
    forall command, rest | CommandShaped(content, prefix, command, rest)
      ensures MatchCommand(CompileCommand(prefix), content) == Some(CommandMatch(command, rest))
    {
      MatchCommandOfShape(prefix, content, command, rest);
    }
    MatchTestCompiled(prefix, content);
  }

  // ----- The processor chain (lines 192-205) -----

  /** The position of the first processor that returns exactly `true`. */
  function FirstHalting(ps: seq<Processor>, msg: Message, run: (Processor, Message) -> Outcome): (r: Option<nat>)
    ensures r.Some? ==> r.value < |ps| && run(ps[r.value], msg) == ReturnedTrue
    ensures forall i :: 0 <= i < |ps| && (r.Some? ==> i < r.value) ==> run(ps[i], msg) != ReturnedTrue
  {
    if ps == [] then None
    else if run(ps[0], msg) == ReturnedTrue then Some(0)
    else
      match FirstHalting(ps[1..], msg, run)
      case None => None
      case Some(k) => Some(k + 1)
  }

  /** The processors the chain calls: up to and including the first that
      returns `true`, or all of them. */
  function CalledProcessors(ps: seq<Processor>, msg: Message, run: (Processor, Message) -> Outcome): seq<Processor> {
    match FirstHalting(ps, msg, run)
    case None => ps
    case Some(k) => ps[..k + 1]
  }

  function ProcessorCalls(ps: seq<Processor>): (r: seq<Effect>)
    ensures |r| == |ps|
    ensures forall i :: 0 <= i < |ps| ==> r[i] == ProcessorCalled(ps[i])
  {
    if ps == [] then [] else [ProcessorCalled(ps[0])] + ProcessorCalls(ps[1..])
  }

  lemma ProcessorCallsAppend(ps: seq<Processor>, p: Processor)
    ensures ProcessorCalls(ps + [p]) == ProcessorCalls(ps) + [ProcessorCalled(p)]
  {
  }

  /** Only a result of exactly `true` halts the chain: two runs that agree on
      which processors return `true` halt at the same place, so a processor
      that throws is treated like one that returns anything else. */
  lemma {:induction false} HaltingOnlySeesTrue(ps: seq<Processor>, msg: Message,
                                              run1: (Processor, Message) -> Outcome,
                                              run2: (Processor, Message) -> Outcome)
    requires forall i :: 0 <= i < |ps| ==> (run1(ps[i], msg) == ReturnedTrue <==> run2(ps[i], msg) == ReturnedTrue)
    ensures FirstHalting(ps, msg, run1) == FirstHalting(ps, msg, run2)
  {
    if ps != [] {
      assert run1(ps[0], msg) == ReturnedTrue <==> run2(ps[0], msg) == ReturnedTrue;
      forall i | 0 <= i < |ps[1..]|
        ensures run1(ps[1..][i], msg) == ReturnedTrue <==> run2(ps[1..][i], msg) == ReturnedTrue
      {
        assert ps[1..][i] == ps[i + 1];
      }
      HaltingOnlySeesTrue(ps[1..], msg, run1, run2);
    }
  }

  // ----- Command matching and execution (lines 207-216, 357-404) -----

  /** How a missing setting reads inside a template literal. */
  function Shown(value: Option<string>): string {
    match value
    case Some(v) => v
    case None => "undefined"
  }

  /** executeCommand: the invocation is logged, the command runs once with the
      trimmed arguments; an error gives a fail reaction and the error notice,
      and a result of exactly `true` gives a fail reaction and the command's
      usage under the guild's stored prefix. */
  function Execute(ctx: Context, msg: Message, command: string, args: string): seq<Effect>
    requires command in ctx.commands
  {
    [CommandLogged(command, args), CommandCalled(command, args)] + Aftermath(ctx, msg, command, args)
  }

  /** What follows the command's run (lines 374-403). */
  function Aftermath(ctx: Context, msg: Message, command: string, args: string): seq<Effect>
    requires command in ctx.commands
  {
    match ctx.ext.runCommand(command, msg, args)
    case Threw => [FailReaction, ErrorNotice(ErrorText)]
    case ReturnedTrue =>
      var prefix := Shown(Setting(ctx.db, msg.guildId, "prefix"));
      [FailReaction, UsageNotice(command, UsageString(prefix, ctx.commands[command].usage))]
    case ReturnedOther => []
  }

  /** The command matcher captures a registered command name. */
  predicate Matched(reg: Registry, ctx: Context, msg: Message)
    requires Registered(reg, msg.guildId)
  {
    var m := MatchCommand(reg.commandRegex[msg.guildId], msg.content);
    m.Some? && m.value.command in ctx.commands
  }

  /** No command to run: a fail reaction when the clean text passes the
      test matcher (lines 209-211). */
  function Unmatched(reg: Registry, msg: Message): (r: seq<Effect>)
    requires Registered(reg, msg.guildId)
    ensures forall i :: 0 <= i < |r| ==> r[i] == FailReaction
  {
    if MatchTest(reg.prefixTestRegex[msg.guildId], msg.cleanContent) then [FailReaction] else []
  }

  /** Lines 207-216 for a registered guild. */
  function MatchAndRun(reg: Registry, ctx: Context, msg: Message): seq<Effect>
    requires Registered(reg, msg.guildId)
  {
    if Matched(reg, ctx, msg) then
      var m := MatchCommand(reg.commandRegex[msg.guildId], msg.content).value;
      Execute(ctx, msg, m.command, Trim(m.rest))
    else
      Unmatched(reg, msg)
  }

  /** The bot is asked for the prefix (line 172). */
  predicate IsPrefixQuery(msg: Message) {
    msg.mentionsBot && Includes(msg.content, "prefix")
  }

  /** The message gets past the ignore, buffer and prefix-query steps. */
  predicate Reaches(reg: Registry, msg: Message) {
    !msg.authorIsBot && !msg.isDM && Registered(reg, msg.guildId) && !IsPrefixQuery(msg)
  }

  /** Lines 192-216: the processor chain, then, unless it halted, the
      command. */
  function Routed(reg: Registry, ctx: Context, msg: Message): seq<Effect>
    requires Registered(reg, msg.guildId)
  {
    var called := ProcessorCalls(CalledProcessors(ctx.processors, msg, ctx.ext.runProcessor));
    if FirstHalting(ctx.processors, msg, ctx.ext.runProcessor).Some? then called
    else called + MatchAndRun(reg, ctx, msg)
  }

  /** onMessage, step by step: ignore bots and DMs; buffer the message of an
      unregistered guild and register the default prefix for it; answer a
      prefix query; run the processor chain; match and run the command. */
  function Dispatch(reg: Registry, unprocessed: seq<Message>, ctx: Context, msg: Message): Step {
    if msg.authorIsBot || msg.isDM then
      Step(reg, unprocessed, [])
    else if !Registered(reg, msg.guildId) then
      Step(Register(reg, msg.guildId, ctx.defaultPrefix), unprocessed + [msg], [])
    else if IsPrefixQuery(msg) then
      Step(reg, unprocessed, [SuccessReaction, PrefixNotice(Shown(Setting(ctx.db, msg.guildId, "prefix")))])
    else
      Step(reg, unprocessed, Routed(reg, ctx, msg))
  }

  // ----- Properties of one dispatch -----

  /** Messages from bots and from DM channels change nothing and do nothing. */
  lemma IgnoredMessage(reg: Registry, unprocessed: seq<Message>, ctx: Context, msg: Message)
    requires msg.authorIsBot || msg.isDM
    ensures Dispatch(reg, unprocessed, ctx, msg) == Step(reg, unprocessed, [])
  {
  }

  /** A message for a guild without matchers is appended to the buffer, the
      default-prefix matchers are created for the guild, and nothing else
      happens: no processor and no command runs. */
  lemma BufferedMessage(reg: Registry, unprocessed: seq<Message>, ctx: Context, msg: Message)
    requires !msg.authorIsBot && !msg.isDM && !Registered(reg, msg.guildId)
    ensures var s := Dispatch(reg, unprocessed, ctx, msg);
      && s.unprocessed == unprocessed + [msg]
      && s.registry == Register(reg, msg.guildId, ctx.defaultPrefix)
      && s.effects == []
  {
  }

  /** A prefix query is answered with the stored prefix and short-circuits
      the processors and the command. */
  lemma PrefixQueryShortCircuits(reg: Registry, unprocessed: seq<Message>, ctx: Context, msg: Message)
    requires !msg.authorIsBot && !msg.isDM && Registered(reg, msg.guildId) && IsPrefixQuery(msg)
    ensures var s := Dispatch(reg, unprocessed, ctx, msg);
      && s.registry == reg && s.unprocessed == unprocessed
      && s.effects == [SuccessReaction, PrefixNotice(Shown(Setting(ctx.db, msg.guildId, "prefix")))]
  {
  }

  /** Only an unregistered guild changes the registry or the buffer; every
      other message leaves both alone. */
  lemma DispatchState(reg: Registry, unprocessed: seq<Message>, ctx: Context, msg: Message)
    ensures var s := Dispatch(reg, unprocessed, ctx, msg);
      if !msg.authorIsBot && !msg.isDM && !Registered(reg, msg.guildId) then
        s.registry == Register(reg, msg.guildId, ctx.defaultPrefix) && s.unprocessed == unprocessed + [msg]
      else
        s.registry == reg && s.unprocessed == unprocessed
    ensures Reaches(reg, msg) ==> Dispatch(reg, unprocessed, ctx, msg).effects == Routed(reg, ctx, msg)
  {
  }

  /** Number of command invocations among the effects. */
  function CommandRuns(effects: seq<Effect>): nat {
    if effects == [] then 0 else (if effects[0].CommandCalled? then 1 else 0) + CommandRuns(effects[1..])
  }

  lemma {:induction false} CommandRunsConcat(a: seq<Effect>, b: seq<Effect>)
    ensures CommandRuns(a + b) == CommandRuns(a) + CommandRuns(b)
  {
    if a != [] {
      assert (a + b)[0] == a[0] && (a + b)[1..] == a[1..] + b;
      CommandRunsConcat(a[1..], b);
    } else {
      assert a + b == b;
    }
  }

  lemma {:induction false} NoCommandInProcessorCalls(ps: seq<Processor>)
    ensures CommandRuns(ProcessorCalls(ps)) == 0
    ensures forall e :: e in ProcessorCalls(ps) ==> e.ProcessorCalled?
  {
    if ps != [] {
      NoCommandInProcessorCalls(ps[1..]);
    }
  }

  lemma {:induction false} NoCommands(es: seq<Effect>)
    requires forall i :: 0 <= i < |es| ==> !es[i].CommandCalled?
    ensures CommandRuns(es) == 0
  {
    if es != [] {
      NoCommands(es[1..]);
    }
  }

  /** The usage notice the aftermath of a run can hold. */
  function UsageNoticeFor(ctx: Context, msg: Message, command: string): Effect
    requires command in ctx.commands
  {
    UsageNotice(command, UsageString(Shown(Setting(ctx.db, msg.guildId, "prefix")), ctx.commands[command].usage))
  }

  /** executeCommand runs its command exactly once, with the given
      arguments; a usage notice follows only a result of exactly `true`, the
      error notice only a thrown error, and the fail reaction either of
      them. */
  lemma ExecuteFacts(ctx: Context, msg: Message, command: string, args: string, e: Effect)
    requires command in ctx.commands
    ensures CommandRuns(Execute(ctx, msg, command, args)) == 1
    ensures e.CommandCalled? ==> (e in Execute(ctx, msg, command, args) <==> e == CommandCalled(command, args))
    ensures e.UsageNotice? ==>
      (e in Execute(ctx, msg, command, args) <==>
        ctx.ext.runCommand(command, msg, args) == ReturnedTrue && e == UsageNoticeFor(ctx, msg, command))
    ensures e.ErrorNotice? ==>
      (e in Execute(ctx, msg, command, args) <==>
        ctx.ext.runCommand(command, msg, args) == Threw && e == ErrorNotice(ErrorText))
    ensures FailReaction in Execute(ctx, msg, command, args) <==> ctx.ext.runCommand(command, msg, args) != ReturnedOther
  {
    var tail := Aftermath(ctx, msg, command, args);
    NoCommands(tail);
    var head := [CommandLogged(command, args), CommandCalled(command, args)];
    assert head == [CommandLogged(command, args)] + [CommandCalled(command, args)];
    CommandRunsConcat([CommandLogged(command, args)], [CommandCalled(command, args)]);
    CommandRunsConcat(head, tail);
  }

  /** What the matching step runs, in terms of the command matcher. */
  lemma MatchAndRunFacts(reg: Registry, ctx: Context, msg: Message, e: Effect)
    requires Registered(reg, msg.guildId)
    ensures CommandRuns(MatchAndRun(reg, ctx, msg)) <= 1
    ensures !Matched(reg, ctx, msg) ==> (e.CommandCalled? || e.UsageNotice?) ==> e !in MatchAndRun(reg, ctx, msg)
    ensures Matched(reg, ctx, msg) ==>
      var m := MatchCommand(reg.commandRegex[msg.guildId], msg.content).value;
      && (e.CommandCalled? ==> (e in MatchAndRun(reg, ctx, msg) <==> e == CommandCalled(m.command, Trim(m.rest))))
      && (e.UsageNotice? ==>
            (e in MatchAndRun(reg, ctx, msg) <==>
              ctx.ext.runCommand(m.command, msg, Trim(m.rest)) == ReturnedTrue && e == UsageNoticeFor(ctx, msg, m.command)))
  {
    if Matched(reg, ctx, msg) {
      var m := MatchCommand(reg.commandRegex[msg.guildId], msg.content).value;
      ExecuteFacts(ctx, msg, m.command, Trim(m.rest), e);
    } else {
      NoCommands(MatchAndRun(reg, ctx, msg));
    }
  }

  /** Once the chain halts, the processors called are exactly those up to the
      one that returned `true`, and no command matching happens. */
  lemma ProcessorHaltEndsDispatch(reg: Registry, unprocessed: seq<Message>, ctx: Context, msg: Message)
    requires Reaches(reg, msg)
    requires FirstHalting(ctx.processors, msg, ctx.ext.runProcessor).Some?
    ensures var k := FirstHalting(ctx.processors, msg, ctx.ext.runProcessor).value;
      && Dispatch(reg, unprocessed, ctx, msg).effects == ProcessorCalls(ctx.processors[..k + 1])
      && CommandRuns(Dispatch(reg, unprocessed, ctx, msg).effects) == 0
  {
    var k := FirstHalting(ctx.processors, msg, ctx.ext.runProcessor).value;
    DispatchState(reg, unprocessed, ctx, msg);
    NoCommandInProcessorCalls(ctx.processors[..k + 1]);
  }

  /** What the routed part of a dispatch runs: the processor calls never
      include a command run or a usage notice. */
  lemma RoutedFacts(reg: Registry, ctx: Context, msg: Message, e: Effect)
    requires Registered(reg, msg.guildId)
    ensures CommandRuns(Routed(reg, ctx, msg)) <= 1
    ensures !e.ProcessorCalled? ==>
      (e in Routed(reg, ctx, msg) <==>
        FirstHalting(ctx.processors, msg, ctx.ext.runProcessor).None? && e in MatchAndRun(reg, ctx, msg))
  {
    var ps := CalledProcessors(ctx.processors, msg, ctx.ext.runProcessor);
    NoCommandInProcessorCalls(ps);
    MatchAndRunFacts(reg, ctx, msg, e);
    if FirstHalting(ctx.processors, msg, ctx.ext.runProcessor).None? {
      CommandRunsConcat(ProcessorCalls(ps), MatchAndRun(reg, ctx, msg));
    }
  }

  /** A command runs at most once per message. */
  lemma AtMostOneCommand(reg: Registry, unprocessed: seq<Message>, ctx: Context, msg: Message)
    ensures CommandRuns(Dispatch(reg, unprocessed, ctx, msg).effects) <= 1
  {
    DispatchState(reg, unprocessed, ctx, msg);
    if Reaches(reg, msg) {
      RoutedFacts(reg, ctx, msg, FailReaction);
    } else {
      NoCommands(Dispatch(reg, unprocessed, ctx, msg).effects);
    }
  }

  /** The command named `command` runs with arguments `args` exactly when the
      message gets past every earlier step, the chain does not halt, the
      command matcher captures `command`, that name is registered, and `args`
      is the captured rest, trimmed. */
  lemma CommandRunsIff(reg: Registry, unprocessed: seq<Message>, ctx: Context, msg: Message, command: string, args: string)
    ensures CommandCalled(command, args) in Dispatch(reg, unprocessed, ctx, msg).effects
      <==> && Reaches(reg, msg)
           && FirstHalting(ctx.processors, msg, ctx.ext.runProcessor).None?
           && MatchCommand(reg.commandRegex[msg.guildId], msg.content).Some?
           && MatchCommand(reg.commandRegex[msg.guildId], msg.content).value.command == command
           && command in ctx.commands
           && Trim(MatchCommand(reg.commandRegex[msg.guildId], msg.content).value.rest) == args
  {
    var e := CommandCalled(command, args);
    DispatchState(reg, unprocessed, ctx, msg);
    if Reaches(reg, msg) {
      RoutedFacts(reg, ctx, msg, e);
      MatchAndRunFacts(reg, ctx, msg, e);
      if Matched(reg, ctx, msg) {
        var m := MatchCommand(reg.commandRegex[msg.guildId], msg.content).value;
        ExecuteFacts(ctx, msg, m.command, Trim(m.rest), e);
      }
    }
  }

  /** When the command matcher fails or captures an unknown name, no command
      runs and the only effect after the processors is a fail reaction, given
      exactly when the clean text matches the test matcher. */
  lemma UnmatchedCommand(reg: Registry, unprocessed: seq<Message>, ctx: Context, msg: Message)
    requires Reaches(reg, msg)
    requires FirstHalting(ctx.processors, msg, ctx.ext.runProcessor).None?
    requires var m := MatchCommand(reg.commandRegex[msg.guildId], msg.content);
      m.None? || m.value.command !in ctx.commands
    ensures Dispatch(reg, unprocessed, ctx, msg).effects
      == ProcessorCalls(ctx.processors)
         + (if MatchTest(reg.prefixTestRegex[msg.guildId], msg.cleanContent) then [FailReaction] else [])
  {
    DispatchState(reg, unprocessed, ctx, msg);
  }

  /** A usage notice is only ever sent after the command returned exactly
      `true`, and it shows that command's usage under the prefix stored in the
      database, not the prefix the matcher was built from. */
  lemma UsageUsesStoredPrefix(reg: Registry, unprocessed: seq<Message>, ctx: Context, msg: Message, command: string, text: string)
    requires UsageNotice(command, text) in Dispatch(reg, unprocessed, ctx, msg).effects
    ensures Reaches(reg, msg) && command in ctx.commands
    ensures MatchCommand(reg.commandRegex[msg.guildId], msg.content).Some?
    ensures MatchCommand(reg.commandRegex[msg.guildId], msg.content).value.command == command
    ensures ctx.ext.runCommand(command, msg, Trim(MatchCommand(reg.commandRegex[msg.guildId], msg.content).value.rest)) == ReturnedTrue
    ensures text == UsageString(Shown(Setting(ctx.db, msg.guildId, "prefix")), ctx.commands[command].usage)
  {
    var e := UsageNotice(command, text);
    DispatchState(reg, unprocessed, ctx, msg);
    RoutedFacts(reg, ctx, msg, e);
    MatchAndRunFacts(reg, ctx, msg, e);
    var m := MatchCommand(reg.commandRegex[msg.guildId], msg.content).value;
    ExecuteFacts(ctx, msg, m.command, Trim(m.rest), e);
  }

  /** The matching step reads the commands, the database and the command
      runner, never the processor runner. */
  lemma MatchAndRunIgnoresProcessors(reg: Registry, ctx: Context, ctx2: Context, msg: Message)
    requires Registered(reg, msg.guildId)
    requires ctx2.commands == ctx.commands && ctx2.db == ctx.db && ctx2.ext.runCommand == ctx.ext.runCommand
    ensures MatchAndRun(reg, ctx2, msg) == MatchAndRun(reg, ctx, msg)
  {
    assert Matched(reg, ctx2, msg) == Matched(reg, ctx, msg);
    if Matched(reg, ctx, msg) {
      var m := MatchCommand(reg.commandRegex[msg.guildId], msg.content).value;
      AftermathIgnoresProcessors(ctx, ctx2, msg, m.command, Trim(m.rest));
    }
  }

  lemma AftermathIgnoresProcessors(ctx: Context, ctx2: Context, msg: Message, command: string, args: string)
    requires command in ctx.commands
    requires ctx2.commands == ctx.commands && ctx2.db == ctx.db && ctx2.ext.runCommand == ctx.ext.runCommand
    ensures Execute(ctx2, msg, command, args) == Execute(ctx, msg, command, args)
  {
    assert ctx2.ext.runCommand(command, msg, args) == ctx.ext.runCommand(command, msg, args);
  }

  /** A processor that throws never halts the chain: the dispatch is the same
      as if it had returned any other value. */
  lemma ThrowingProcessorIsNotAnAction(reg: Registry, unprocessed: seq<Message>, ctx: Context, msg: Message,
                                       run2: (Processor, Message) -> Outcome)
    requires forall p :: (run2(p, msg) == ReturnedTrue) <==> (ctx.ext.runProcessor(p, msg) == ReturnedTrue)
    ensures var ctx2 := ctx.(ext := ctx.ext.(runProcessor := run2));
      Dispatch(reg, unprocessed, ctx2, msg) == Dispatch(reg, unprocessed, ctx, msg)
  {
    var ctx2 := ctx.(ext := ctx.ext.(runProcessor := run2));
    HaltingOnlySeesTrue(ctx.processors, msg, ctx.ext.runProcessor, run2);
    if Registered(reg, msg.guildId) {
      MatchAndRunIgnoresProcessors(reg, ctx, ctx2, msg);
      assert CalledProcessors(ctx2.processors, msg, run2) == CalledProcessors(ctx.processors, msg, ctx.ext.runProcessor);
      assert Routed(reg, ctx2, msg) == Routed(reg, ctx, msg);
    }
  }

  /** Routing never breaks the pairing of the two matcher tables. */
  lemma DispatchKeepsConsistent(reg: Registry, unprocessed: seq<Message>, ctx: Context, msg: Message)
    requires Consistent(reg)
    ensures Consistent(Dispatch(reg, unprocessed, ctx, msg).registry)
  {
    DispatchState(reg, unprocessed, ctx, msg);
    if !msg.authorIsBot && !msg.isDM && !Registered(reg, msg.guildId) {
      RegisterKeepsConsistent(reg, msg.guildId, ctx.defaultPrefix);
    }
  }

  /** A guild's prefix may hold any characters, pattern syntax included: a
      message made of the prefix, whitespace, a registered command name and
      argument text runs that command with the argument text, trimmed, when
      no processor halts and it is not a prefix query. */
  lemma PrefixedCommandRuns(reg: Registry, unprocessed: seq<Message>, ctx: Context, msg: Message, prefix: string,
                            head: string, ws: string, command: string, gap: string, rest: string)
    requires Registered(reg, msg.guildId) && reg.commandRegex[msg.guildId] == CompileCommand(prefix)
    requires !msg.authorIsBot && !msg.isDM && !IsPrefixQuery(msg)
    requires FirstHalting(ctx.processors, msg, ctx.ext.runProcessor).None?
    requires msg.content == head + ws + command + gap + rest
    requires EqualIgnoringCase(head, prefix)
    requires ws != [] && AllSpace(ws)
    requires command != [] && NoSpace(command) && command in ctx.commands
    requires AllSpace(gap) && (gap == [] ==> rest == [])
    requires rest == [] || !IsSpace(rest[0])
    ensures CommandCalled(command, TrimEnd(rest)) in Dispatch(reg, unprocessed, ctx, msg).effects
  {
    MatchCommandComplete(prefix, head, ws, command, gap, rest);
    TrimStartSkips([], rest);
    assert Trim(rest) == TrimEnd(rest);
    CommandRunsIff(reg, unprocessed, ctx, msg, command, TrimEnd(rest));
  }
}
