// Escaping a guild prefix before it is embedded in a regular expression
// (createRegexForGuild, shard.ts line 85), and reading an escaped pattern back
// as the literal text it matches.

module Escape {
  import opened Wrappers

  /** The characters of the class `[-\/\\^$*+?.()|[\]{}]`, each of which the
      source replaces by a backslash followed by itself. */
  predicate IsSpecial(c: char) {
    c in "-/\\^$*+?.()|[]{}"
  }

  /** ECMAScript SyntaxCharacter: outside a class these are not literal atoms. */
  predicate IsSyntaxChar(c: char) {
    c in "^$\\.*+?()[]{}|"
  }

  function CountSpecial(p: string): (n: nat)
    ensures n <= |p|
  {
    if p == [] then 0 else (if IsSpecial(p[0]) then 1 else 0) + CountSpecial(p[1..])
  }

  /** `prefix.replace(/[-\/\\^$*+?.()|[\]{}]/g, '\\$&')`. */
  function EscapePrefix(p: string): (r: string)
    ensures |r| == |p| + CountSpecial(p)
  {
    if p == [] then []
    else (if IsSpecial(p[0]) then ['\\', p[0]] else [p[0]]) + EscapePrefix(p[1..])
  }

  /** Reads a pattern as a run of literal atoms: `\c` for a special `c` is the
      literal `c`; any other character that is not a SyntaxCharacter stands for
      itself. A pattern with anything else in it (an unescaped metacharacter, a
      class escape such as `\d`, a trailing backslash) is not a literal, and the
      result is None. */
  function Unescape(pattern: string): (r: Option<string>)
    ensures r.Some? ==> |r.value| <= |pattern|
  {
    if pattern == [] then Some([])
    else if pattern[0] == '\\' then
      if |pattern| >= 2 && IsSpecial(pattern[1]) then
        match Unescape(pattern[2..])
        case None => None
        case Some(rest) => Some([pattern[1]] + rest)
      else None
    else if IsSyntaxChar(pattern[0]) then None
    else
      match Unescape(pattern[1..])
      case None => None
      case Some(rest) => Some([pattern[0]] + rest)
  }

  /** Escaping is undone by reading the pattern back: the compiled pattern
      matches the prefix literally, whatever characters the prefix holds. */
  lemma {:induction false} UnescapeEscape(p: string)
    ensures Unescape(EscapePrefix(p)) == Some(p)
  {
    if p != [] {
      var e := EscapePrefix(p);
      UnescapeEscape(p[1..]);
      if IsSpecial(p[0]) {
        assert e[0] == '\\' && e[1] == p[0] && e[2..] == EscapePrefix(p[1..]);
      } else {
        assert e[0] == p[0] && e[1..] == EscapePrefix(p[1..]);
      }
      assert [p[0]] + p[1..] == p;
    }
  }

  /** A prefix with no special character is embedded unchanged. */
  lemma {:induction false} EscapePlain(p: string)
    requires forall i :: 0 <= i < |p| ==> !IsSpecial(p[i])
    ensures EscapePrefix(p) == p
  {
    if p != [] {
      EscapePlain(p[1..]);
      assert [p[0]] + p[1..] == p;
    }
  }

  /** Escaping distributes over concatenation, so every character of the
      prefix is escaped on its own. */
  lemma {:induction false} EscapeConcat(a: string, b: string)
    ensures EscapePrefix(a + b) == EscapePrefix(a) + EscapePrefix(b)
  {
    if a != [] {
      assert (a + b)[0] == a[0] && (a + b)[1..] == a[1..] + b;
      EscapeConcat(a[1..], b);
    } else {
      assert a + b == b;
    }
  }

  /** Different prefixes never compile to the same pattern. */
  lemma EscapeInjective(p: string, q: string)
    requires EscapePrefix(p) == EscapePrefix(q)
    ensures p == q
  {
    UnescapeEscape(p);
    UnescapeEscape(q);
  }
}
