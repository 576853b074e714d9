// The kick command (src/commands/kick/kick.ts): the value `run` hands back to
// the router, and the decisions `runAsync` takes before its Discord calls.
// Everything `runAsync` reads from Discord and the database is an input; what
// it sends, kicks and logs is the outcome.

module Kick {
  import opened Wrappers
  import opened Text
  import opened Usage
  import opened Store
  import opened Router

  /** The command's usage entry (line 5): its syntax and its description
      around the usage separator. */
  const KickSyntax: string := "kick @user [reason]"
  const KickDescription: string := "Kicks the user with the specified reason"
  const KickUsage: string := KickSyntax + Separator + KickDescription

  const DefaultReason: string := "No reason specified"
  const MentionNeeded: string := "You need to mention the user to kick."
  const NotKickable: string := "The specified member is not kickable."
  const InvalidChannel: string := "Invalid channel in guild configuration, set a proper one via `prefix settings` command."

  /** The embed colour, orange. */
  const LogColor: int := 0xFF9900

  /** A guild member as the command sees it: the user's tag, whether the bot
      may kick it, and how the author's highest role compares to the
      member's (`comparePositionTo`: positive when the author's is higher). */
  datatype Member = Member(tag: string, kickable: bool, authorRoleComparison: int)

  /** The two mod-log columns of the guild's configuration row. */
  datatype GuildConfig = GuildConfig(modLogActive: bool, modLogChannelId: string)

  /** What one invocation reads: the argument string, the guild's name, the
      author's tag, the mentioned users in order, the guild's member lookup,
      the configuration row (absent when the guild has none), the type of
      every channel the client knows, and whether the direct message to the
      member is delivered (it is not when the member refuses direct
      messages). */
  datatype Invocation = Invocation(
    args: string,
    guildName: string,
    authorTag: string,
    mentions: seq<string>,
    memberOf: string -> Option<Member>,
    config: Option<GuildConfig>,
    channelTypes: map<string, string>,
    noticeDelivered: bool)

  datatype Field = Field(name: string, value: string, inline: bool)

  datatype Embed = Embed(color: int, fields: seq<Field>)

  /** What happens in the mod-log channel after a kick. */
  datatype ModLog =
    | NoModLog
    | ChannelNotice(text: string)
    | Logged(channelId: string, embed: Embed)

  /** The outcome of `runAsync`: a reply in the channel and nothing else, or
      a kick of `target`: the direct message, the removal from the guild
      (`removed`, which waits for the direct message), a kick record with
      the same reason, and the mod-log step. */
  datatype KickOutcome =
    | Refused(reply: string)
    | Kicked(target: Member, reason: string, notice: string, removed: bool, modLog: ModLog)

  /** `run` starts `runAsync` without awaiting it and returns `undefined`:
      never `true`, and never an error, since a failure inside the async
      body rejects its promise instead of throwing (lines 10-13). */
  function Run(inv: Invocation): (o: Outcome)
    ensures o != ReturnedTrue && o != Threw
  {
    ReturnedOther
  }

  /** `args.split(' ').slice(1).join(' ')` (line 16). */
  function ReasonText(args: string): string {
    Join(Split(args, " ")[1..], " ")
  }

  /** `args || 'No reason specified'` (line 30). */
  function Reason(args: string): string {
    var text := ReasonText(args);
    if text == "" then DefaultReason else text
  }

  /** The direct message the member receives before the kick (line 35). */
  function KickNotice(guildName: string, authorTag: string, reason: string): string {
    "**Time out!** You have been kicked from " + guildName + ".\n\n**Kicked by:** " + authorTag + "\n\n**Reason:** " + reason
  }

  /** The embed's fields, in order (lines 57-62). */
  function LogFields(target: Member, reason: string, authorTag: string): seq<Field> {
    [ Field("Action:", "Kick", false),
      Field("User:", target.tag, false),
      Field("Reason:", reason, false),
      Field("Responsible Moderator:", authorTag, false) ]
  }

  /** Lines 40-66: nothing without an active mod log; a notice when the
      configured channel is unknown or not a text channel; else the embed. */
  function ModLogStep(inv: Invocation, target: Member, reason: string): (m: ModLog)
    ensures m.NoModLog? <==> inv.config.None? || !inv.config.value.modLogActive
    ensures m.ChannelNotice? <==>
      && inv.config.Some? && inv.config.value.modLogActive
      && (inv.config.value.modLogChannelId !in inv.channelTypes
          || inv.channelTypes[inv.config.value.modLogChannelId] != "text")
    ensures m.ChannelNotice? ==> m.text == InvalidChannel
    ensures m.Logged? ==>
      && m.channelId == inv.config.value.modLogChannelId
      && m.embed.color == LogColor
      && |m.embed.fields| == 4
      && m.embed.fields[0] == Field("Action:", "Kick", false)
      && m.embed.fields[1] == Field("User:", target.tag, false)
      && m.embed.fields[2] == Field("Reason:", reason, false)
      && m.embed.fields[3] == Field("Responsible Moderator:", inv.authorTag, false)
  {
    match inv.config
    case None => NoModLog
    case Some(config) =>
      if !config.modLogActive then NoModLog
      else if config.modLogChannelId !in inv.channelTypes || inv.channelTypes[config.modLogChannelId] != "text" then
        ChannelNotice(InvalidChannel)
      else
        Logged(config.modLogChannelId, Embed(LogColor, LogFields(target, reason, inv.authorTag)))
  }

  /** The guild member behind the first mentioned user, if any (line 23). */
  function Target(inv: Invocation): Option<Member>
    requires |inv.mentions| > 0
  {
    inv.memberOf(inv.mentions[0])
  }

  /** The member can be kicked: it exists, the bot may kick it, and the
      author's highest role is strictly above the member's. */
  predicate CanKick(target: Option<Member>) {
    target.Some? && target.value.kickable && target.value.authorRoleComparison > 0
  }

  /** `runAsync`: the mention check first, then the kickability check, then
      the kick and the mod-log step. The member leaves the guild only once
      the direct message is delivered (lines 35-36); the record and the
      mod-log step do not wait for it. */
  function RunAsync(inv: Invocation): (r: KickOutcome)
    ensures |inv.mentions| == 0 <==> r == Refused(MentionNeeded)
    ensures r == Refused(NotKickable) <==> |inv.mentions| > 0 && !CanKick(Target(inv))
    ensures r.Kicked? <==> |inv.mentions| > 0 && CanKick(Target(inv))
    ensures r.Kicked? ==>
      && Some(r.target) == Target(inv)
      && r.reason == Reason(inv.args)
      && r.notice == KickNotice(inv.guildName, inv.authorTag, r.reason)
      && (r.removed <==> inv.noticeDelivered)
      && r.modLog == ModLogStep(inv, r.target, r.reason)
  {
    if |inv.mentions| == 0 then Refused(MentionNeeded)
    else
      var member := Target(inv);
      if !CanKick(member) then Refused(NotKickable)
      else
        var reason := Reason(inv.args);
        Kicked(member.value, reason, KickNotice(inv.guildName, inv.authorTag, reason), inv.noticeDelivered,
               ModLogStep(inv, member.value, reason))
  }

  /** A value the router passes to `run`. */
  datatype Argument = ShardArgument | ClientArgument | MessageArgument | TextArgument(text: string)

  /** The router's call `run(this, this.jim, msg, args)` (shard.ts line 376). */
  function RouterCall(args: string): seq<Argument> {
    [ShardArgument, ClientArgument, MessageArgument, TextArgument(args)]
  }

  /** `runAsync` given whatever its `args` parameter holds: on anything but
      a string, `args.split` on line 16 throws before the first check, and the
      async body's promise rejects with nothing sent, kicked, recorded or
      logged (None). */
  function RunAsyncOn(inv: Invocation, args: Argument): (r: Option<KickOutcome>)
    ensures r.None? <==> !args.TextArgument?
    ensures args.TextArgument? ==> r == Some(RunAsync(inv.(args := args.text)))
  {
    match args
    case TextArgument(text) => Some(RunAsync(inv.(args := text)))
    case _ => None
  }

  /** Kick as the router calls it: `run` declares `(bot, msg, args)`
      (line 10), so JavaScript binds the third argument, the message, to
      `args` and drops the fourth, the argument text. */
  function RoutedRunAsync(inv: Invocation): Option<KickOutcome> {
    RunAsyncOn(inv, RouterCall(inv.args)[2])
  }

  /** Kick with its parameters lined up with the router's call: `args` is
      the argument text. */
  function AlignedRunAsync(inv: Invocation): Option<KickOutcome> {
    RunAsyncOn(inv, RouterCall(inv.args)[3])
  }

  /** As written, kick invoked by the router never replies, kicks, records
      or logs; with the parameters aligned it takes exactly the decisions of
      RunAsync. */
  lemma RoutedKickDoesNothing(inv: Invocation)
    ensures RoutedRunAsync(inv) == None
    ensures AlignedRunAsync(inv) == Some(RunAsync(inv))
  {
    assert inv.(args := inv.args) == inv;
  }

  /** For any argument text: an invocation that should kick, a mention of a
      kickable, outranked member. The aligned call kicks; the call as
      written does nothing. */
  lemma RoutedKickMissesAKick(args: string)
    ensures exists inv: Invocation :: RunAsync(inv).Kicked? && RoutedRunAsync(inv) == None && AlignedRunAsync(inv).Some?
  {
    var target := Member(args, true, 1);
    var inv := Invocation(args, args, args, [args], u => Some(target), None, map[], true);
    assert Target(inv) == Some(target);
    RoutedKickDoesNothing(inv);
    assert RunAsync(inv).Kicked? && RoutedRunAsync(inv) == None && AlignedRunAsync(inv).Some?;
  }

  /** The reason is the text after the first space of the arguments (the
      mention is the first word), or the default when there is no space or
      nothing after it. */
  lemma ReasonAfterFirstSpace(args: string)
    ensures IndexOf(args, " ").None? ==> Reason(args) == DefaultReason
    ensures IndexOf(args, " ").Some? ==>
      var rest := args[IndexOf(args, " ").value + 1..];
      Reason(args) == if rest == "" then DefaultReason else rest
  {
    match IndexOf(args, " ")
    case None =>
      assert Split(args, " ") == [args];
    case Some(i) =>
      var rest := args[i + 1..];
      assert Split(args, " ")[1..] == Split(rest, " ");
      JoinSplit(rest, " ");
  }

  /** The reason is never empty, and an explicit reason keeps its spacing:
      words after the first are rejoined with the single spaces they were
      split on. */
  lemma ReasonKeepsText(mention: string, text: string)
    requires Free(mention, " ") && text != ""
    ensures Reason(mention + " " + text) == text
  {
    var args := mention + " " + text;
    assert OccursAt(args, " ", |mention|) by {
      assert args[|mention|..|mention| + 1] == " ";
    }
    forall k: nat | k < |mention|
      ensures !OccursAt(args, " ", k)
    {
      assert !OccursAt(mention, " ", k);
      assert args[k..k + 1] == mention[k..k + 1];
    }
    assert IndexOf(args, " ") == Some(|mention|);
    assert args[|mention| + 1..] == text;
    ReasonAfterFirstSpace(args);
  }

  /** The router runs kick, logs it, and then adds nothing: no fail
      reaction, no usage text and no error notice, whatever `runAsync`
      goes on to do. */
  lemma RouterShowsNothingAfterKick(ctx: Context, msg: Message, args: string, inv: Invocation)
    requires "kick" in ctx.commands
    requires ctx.ext.runCommand("kick", msg, args) == Run(inv)
    ensures Execute(ctx, msg, "kick", args) == [CommandLogged("kick", args), CommandCalled("kick", args)]
    ensures NoUsageOrError(Execute(ctx, msg, "kick", args))
  {
    assert Aftermath(ctx, msg, "kick", args) == [];
  }

  /** No fail reaction, usage notice or error notice among the effects. */
  predicate NoUsageOrError(effects: seq<Effect>) {
    forall i :: 0 <= i < |effects| ==> !effects[i].FailReaction? && !effects[i].UsageNotice? && !effects[i].ErrorNotice?
  }

  /** A text without a dash holds no usage separator, not even with " -"
      after it. */
  lemma SeparatorFree(s: string)
    requires forall i :: 0 <= i < |s| ==> s[i] != '-'
    ensures Free(s, Separator) && Free(s + " -", Separator)
  {
    forall k: nat
      ensures !OccursAt(s, Separator, k) && !OccursAt(s + " -", Separator, k)
    {
      if k + 1 < |s| {
        assert s[k + 1] != Separator[1];
        assert (s + " -")[k + 1] == s[k + 1];
      } else if k + 1 == |s| {
        assert (s + " -")[k + 1] == ' ';
      }
    }
  }

  /** The usage line the router shows for kick under a guild's prefix. */
  lemma KickUsageLine(prefix: string)
    ensures UsageString(prefix, Single(KickUsage)) == "`" + prefix + " " + KickSyntax + "` - " + KickDescription
  {
    SeparatorFree(KickSyntax);
    SeparatorFree(KickDescription);
    UsageLineOfPair(prefix, KickSyntax, KickDescription);
  }
}
