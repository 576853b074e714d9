// The two regular expressions createRegexForGuild compiles for a guild
// (shard.ts lines 86-87), as explicit matchers. Each matcher is kept as the
// escaped pattern source the registry holds, and matching reads that source
// back as literal text before applying the rest of the expression.

module Matchers {
  import opened Wrappers
  import opened Text
  import opened Escape

  /** `new RegExp('^' + escapedPrefix + '\\s+([^\\s]+)\\s*([^]*)\\s*', 'i')` */
  datatype CommandPattern = CommandPattern(escapedPrefix: string)

  /** `new RegExp('^' + escapedPrefix + '[\\s]*( .*)?$', 'i')` */
  datatype TestPattern = TestPattern(escapedPrefix: string)

  /** Capture groups 1 (the command) and 2 (the argument text, untrimmed). */
  datatype CommandMatch = CommandMatch(command: string, rest: string)

  function CompileCommand(prefix: string): CommandPattern {
    CommandPattern(EscapePrefix(prefix))
  }

  function CompileTest(prefix: string): TestPattern {
    TestPattern(EscapePrefix(prefix))
  }

  /** `\s+([^\s]+)\s*([^]*)\s*` applied after the prefix. The greedy `\s+`
      takes the whole run of whitespace and `[^\s]+` the whole token that
      follows (backtracking cannot help either of them); `\s*` then takes the
      next run of whitespace, `[^]*` everything after it, and the final `\s*`
      matches the empty string at the end. */
  function CommandTail(t: string): Option<CommandMatch> {
    var afterSpace := TrimStart(t);
    if |afterSpace| == |t| || afterSpace == [] then None
    else
      var command := Token(afterSpace);
      Some(CommandMatch(command, TrimStart(afterSpace[|command|..])))
  }

  /** `content.match(commandRegex[guild])` */
  function MatchCommand(pat: CommandPattern, content: string): Option<CommandMatch> {
    match Unescape(pat.escapedPrefix)
    case None => None
    case Some(lit) =>
      if StartsWithIgnoringCase(content, lit) then CommandTail(content[|lit|..]) else None
  }

  /** `[\s]*( .*)?$` applied after the prefix, searching the split points the
      way backtracking does: either the text ends here, or a space starts the
      optional group and no line terminator follows it, or one more whitespace
      character goes to `[\s]*`. */
  function TestTail(t: string): bool {
    if t == [] then true
    else if t[0] == ' ' && NoLineTerminator(t[1..]) then true
    else if IsSpace(t[0]) then TestTail(t[1..])
    else false
  }

  /** `cleanContent.match(prefixTestRegex[guild])` succeeds. */
  predicate MatchTest(pat: TestPattern, s: string) {
    match Unescape(pat.escapedPrefix)
    case None => false
    case Some(lit) => StartsWithIgnoringCase(s, lit) && TestTail(s[|lit|..])
  }

  /** The text after the prefix splits into at least one whitespace
      character, a non-empty token with no whitespace, optional whitespace,
      and the argument text, which does not start with whitespace (and is
      empty when no whitespace follows the token). */
  ghost predicate TailPieces(t: string, ws: string, command: string, gap: string, rest: string) {
    && t == ws + command + gap + rest
    && ws != [] && AllSpace(ws)
    && command != [] && NoSpace(command)
    && AllSpace(gap) && (gap == [] ==> rest == [])
    && (rest == [] || !IsSpace(rest[0]))
  }

  /** Declarative reading of the command expression: the prefix, letters in
      any case, followed by text made of the pieces above. */
  ghost predicate CommandShaped(content: string, prefix: string, command: string, rest: string) {
    && StartsWithIgnoringCase(content, prefix)
    && exists ws, gap :: TailPieces(content[|prefix|..], ws, command, gap, rest)
  }

  /** Declarative reading of `[\s]*( .*)?$`: some whitespace, then either the
      end, or a space and text without line terminators. */
  ghost predicate TestShaped(t: string) {
    exists i :: 0 <= i <= |t| && AllSpace(t[..i]) && (i == |t| || (t[i] == ' ' && NoLineTerminator(t[i + 1..])))
  }

  /** The compiled command pattern matches through its prefix literally. */
  lemma MatchCommandCompiled(prefix: string, content: string)
    ensures MatchCommand(CompileCommand(prefix), content)
         == if StartsWithIgnoringCase(content, prefix) then CommandTail(content[|prefix|..]) else None
  {
    UnescapeEscape(prefix);
  }

  lemma CommandTailSound(t: string)
    requires CommandTail(t).Some?
    ensures var m := CommandTail(t).value;
      exists ws, gap :: TailPieces(t, ws, m.command, gap, m.rest)
  {
    var ws, gap := TailPiecesOf(t);
  }

  /** The pieces a successful match is made of. */
  lemma TailPiecesOf(t: string) returns (ws: string, gap: string)
    requires CommandTail(t).Some?
    ensures TailPieces(t, ws, CommandTail(t).value.command, gap, CommandTail(t).value.rest)
  {
    var a := TrimStart(t);
    var c := Token(a);
    var after := a[|c|..];
    var r := TrimStart(after);
    assert CommandTail(t).value == CommandMatch(c, r);
    ws := t[..|t| - |a|];
    SplitAt(t, |t| - |a|);
    SplitAt(a, |c|);
    gap := after[..|after| - |r|];
    SplitAt(after, |after| - |r|);
    assert c != [] by {
      assert !IsSpace(a[0]);
    }
    AssemblePieces(t, ws, a, c, after, gap, r);
  }

  lemma AssemblePieces(t: string, ws: string, a: string, c: string, after: string, gap: string, r: string)
    requires t == ws + a && a == c + after && after == gap + r
    requires ws != [] && AllSpace(ws) && c != [] && NoSpace(c)
    requires AllSpace(gap) && (gap == [] ==> r == []) && (r == [] || !IsSpace(r[0]))
    ensures TailPieces(t, ws, c, gap, r)
  {
    Concat4(ws, c, gap, r);
  }

  /** Every match of the compiled command expression has the declared shape. */
  lemma MatchCommandSound(prefix: string, content: string)
    requires MatchCommand(CompileCommand(prefix), content).Some?
    ensures var m := MatchCommand(CompileCommand(prefix), content).value;
      CommandShaped(content, prefix, m.command, m.rest)
  {
    MatchCommandCompiled(prefix, content);
    CommandTailSound(content[|prefix|..]);
  }

  /** One unfolding of CommandTail, from the pieces it is made of. */
  lemma CommandTailOf(t: string, x: string, command: string, y: string, rest: string)
    requires TrimStart(t) == x && |x| != |t| && x != []
    requires Token(x) == command && x[|command|..] == y && TrimStart(y) == rest
    ensures CommandTail(t) == Some(CommandMatch(command, rest))
  {
  }

  lemma CommandTailComplete(ws: string, command: string, gap: string, rest: string)
    requires ws != [] && AllSpace(ws)
    requires command != [] && NoSpace(command)
    requires AllSpace(gap) && (gap == [] ==> rest == [])
    requires rest == [] || !IsSpace(rest[0])
    ensures CommandTail(ws + command + gap + rest) == Some(CommandMatch(command, rest))
  {
    var y := gap + rest;
    var x := command + y;
    var t := ws + x;
    assert x[0] == command[0];
    TrimStartSkips(ws, x);
    assert gap != [] ==> y[0] == gap[0];
    TokenOf(command, y);
    assert x[|command|..] == y;
    TrimStartSkips(gap, rest);
    CommandTailOf(t, x, command, y, rest);
    Concat4(ws, command, gap, rest);
  }

  /** Every text of the declared shape matches, with the command and the
      argument text it was built from. */
  lemma MatchCommandComplete(prefix: string, head: string, ws: string, command: string, gap: string, rest: string)
    requires EqualIgnoringCase(head, prefix)
    requires ws != [] && AllSpace(ws)
    requires command != [] && NoSpace(command)
    requires AllSpace(gap) && (gap == [] ==> rest == [])
    requires rest == [] || !IsSpace(rest[0])
    ensures MatchCommand(CompileCommand(prefix), head + ws + command + gap + rest)
            == Some(CommandMatch(command, rest))
  {
    var tail := ws + command + gap + rest;
    Concat5(head, ws, command, gap, rest);
    HeadTail(head, tail);
    MatchCommandCompiled(prefix, head + tail);
    CommandTailComplete(ws, command, gap, rest);
  }

  /** Completeness restated over CommandShaped: a text of the command shape
      for a prefix matches that prefix's compiled expression. */
  lemma MatchCommandOfShape(prefix: string, content: string, command: string, rest: string)
    requires CommandShaped(content, prefix, command, rest)
    ensures MatchCommand(CompileCommand(prefix), content) == Some(CommandMatch(command, rest))
  {
    var ws, gap :| TailPieces(content[|prefix|..], ws, command, gap, rest);
    var head := content[..|prefix|];
    SplitAt(content, |prefix|);
    Concat5(head, ws, command, gap, rest);
    MatchCommandComplete(prefix, head, ws, command, gap, rest);
  }

  lemma {:induction false} TestTailShaped(t: string)
    ensures TestTail(t) <==> TestShaped(t)
  {
    if t == [] {
      assert AllSpace(t[..0]);
    } else if t[0] == ' ' && NoLineTerminator(t[1..]) {
      assert AllSpace(t[..0]);
    } else if IsSpace(t[0]) {
      TestTailShaped(t[1..]);
      if TestShaped(t[1..]) {
        ShapedAfterSpace(t);
      }
      if TestShaped(t) {
        ShapedPastSpace(t);
      }
    }
  }

  /** A leading whitespace character can be put in front of a shaped text. */
  lemma ShapedAfterSpace(t: string)
    requires t != [] && IsSpace(t[0]) && TestShaped(t[1..])
    ensures TestShaped(t)
  {
    var u := t[1..];
    var i :| 0 <= i <= |u| && AllSpace(u[..i]) && (i == |u| || (u[i] == ' ' && NoLineTerminator(u[i + 1..])));
    assert t[..i + 1] == [t[0]] + u[..i];
    if i < |u| {
      assert t[i + 2..] == u[i + 1..];
    }
  }

  /** A shaped text that does not take the optional group at once stays
      shaped without its leading whitespace character. */
  lemma ShapedPastSpace(t: string)
    requires t != [] && !(t[0] == ' ' && NoLineTerminator(t[1..])) && TestShaped(t)
    ensures TestShaped(t[1..])
  {
    var i :| 0 <= i <= |t| && AllSpace(t[..i]) && (i == |t| || (t[i] == ' ' && NoLineTerminator(t[i + 1..])));
    assert i != 0;
    assert t[1..][..i - 1] == t[1..i];
    assert AllSpace(t[1..][..i - 1]);
    assert i - 1 < |t[1..]| ==> t[1..][i..] == t[i + 1..];
  }

  /** The compiled test expression matches exactly the texts that start with
      the prefix and continue as `[\s]*( .*)?$` demands. */
  lemma MatchTestCompiled(prefix: string, s: string)
    ensures MatchTest(CompileTest(prefix), s)
        <==> StartsWithIgnoringCase(s, prefix) && TestShaped(s[|prefix|..])
  {
    UnescapeEscape(prefix);
    if StartsWithIgnoringCase(s, prefix) {
      TestTailShaped(s[|prefix|..]);
    }
  }

  /** With no whitespace right after the prefix (`-modkick`, `!kick`), the
      command expression does not match, and the test expression does not
      either. */
  lemma NoSpaceAfterPrefix(prefix: string, head: string, tail: string)
    requires EqualIgnoringCase(head, prefix)
    requires tail != [] && !IsSpace(tail[0])
    ensures MatchCommand(CompileCommand(prefix), head + tail).None?
    ensures !MatchTest(CompileTest(prefix), head + tail)
  {
    UnescapeEscape(prefix);
    assert (head + tail)[..|prefix|] == head;
    assert (head + tail)[|prefix|..] == tail;
  }
}
