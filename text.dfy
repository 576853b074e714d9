// Small pieces of the JavaScript string library that the router and the kick
// command rely on, written out so that their behaviour can be reasoned about.

module Wrappers {

  datatype Option<+T> = None | Some(value: T)
}

module Text {
  import opened Wrappers

  /** The class `\s` of an ECMAScript regular expression: WhiteSpace and
      LineTerminator.  `String.prototype.trim` removes exactly the same set. */
  predicate IsSpace(c: char) {
    || c == '\t' || c == '\n' || c == '\U{000B}' || c == '\U{000C}' || c == '\r' || c == ' '
    || c == '\U{00A0}' || c == '\U{1680}' || ('\U{2000}' <= c <= '\U{200A}')
    || c == '\U{2028}' || c == '\U{2029}' || c == '\U{202F}' || c == '\U{205F}'
    || c == '\U{3000}' || c == '\U{FEFF}'
  }

  /** The characters `.` refuses to match when the `s` flag is absent. */
  predicate IsLineTerminator(c: char) {
    c == '\n' || c == '\r' || c == '\U{2028}' || c == '\U{2029}'
  }

  predicate AllSpace(s: string) {
    forall i :: 0 <= i < |s| ==> IsSpace(s[i])
  }

  predicate NoSpace(s: string) {
    forall i :: 0 <= i < |s| ==> !IsSpace(s[i])
  }

  predicate NoLineTerminator(s: string) {
    forall i :: 0 <= i < |s| ==> !IsLineTerminator(s[i])
  }

  /** Leading whitespace removed. */
  function TrimStart(s: string): (r: string)
    ensures |r| <= |s| && r == s[|s| - |r|..]
    ensures AllSpace(s[..|s| - |r|])
    ensures r == [] || !IsSpace(r[0])
  {
    if s != [] && IsSpace(s[0]) then TrimStart(s[1..]) else s
  }

  /** Trailing whitespace removed. */
  function TrimEnd(s: string): (r: string)
    ensures |r| <= |s| && r == s[..|r|]
    ensures AllSpace(s[|r|..])
    ensures r == [] || !IsSpace(r[|r| - 1])
  {
    if s != [] && IsSpace(s[|s| - 1]) then TrimEnd(s[..|s| - 1]) else s
  }

  /** `String.prototype.trim`. */
  function Trim(s: string): string {
    TrimEnd(TrimStart(s))
  }

  /** The longest prefix of `s` that holds no whitespace: what the greedy
      class `[^\s]+` consumes. */
  function Token(s: string): (r: string)
    ensures |r| <= |s| && r == s[..|r|]
    ensures NoSpace(r)
    ensures |r| < |s| ==> IsSpace(s[|r|])
  {
    if s != [] && !IsSpace(s[0]) then [s[0]] + Token(s[1..]) else []
  }

  /** Upper-case mapping of the `i` flag, for ASCII letters. */
  function FoldCase(c: char): char {
    if 'a' <= c <= 'z' then (c as int - 32) as char else c
  }

  predicate EqualIgnoringCase(a: string, b: string) {
    |a| == |b| && forall i :: 0 <= i < |a| ==> FoldCase(a[i]) == FoldCase(b[i])
  }

  /** `s` begins with `lit`, letters compared without regard to case. */
  predicate StartsWithIgnoringCase(s: string, lit: string) {
    |lit| <= |s| && EqualIgnoringCase(s[..|lit|], lit)
  }

  predicate OccursAt(s: string, sep: string, k: nat) {
    k + |sep| <= |s| && s[k..k + |sep|] == sep
  }

  /** `sep` occurs nowhere in `s`. */
  ghost predicate Free(s: string, sep: string) {
    forall k: nat :: !OccursAt(s, sep, k)
  }

  /** `s.indexOf(sep, from)`: the least position at or after `from` where `sep` occurs. */
  function IndexFrom(s: string, sep: string, from: nat): (r: Option<nat>)
    requires |sep| > 0
    ensures r.Some? ==> from <= r.value && OccursAt(s, sep, r.value)
    ensures forall k: nat :: from <= k && (r.Some? ==> k < r.value) ==> !OccursAt(s, sep, k)
    decreases |s| - from
  {
    if |s| < from + |sep| then None
    else if s[from..from + |sep|] == sep then Some(from)
    else IndexFrom(s, sep, from + 1)
  }

  /** `s.indexOf(sep)`. */
  function IndexOf(s: string, sep: string): (r: Option<nat>)
    requires |sep| > 0
    ensures r.None? <==> Free(s, sep)
    ensures r.Some? ==> OccursAt(s, sep, r.value)
    ensures r.Some? ==> forall k: nat :: k < r.value ==> !OccursAt(s, sep, k)
  {
    IndexFrom(s, sep, 0)
  }

  /** `s.includes(sub)`. */
  predicate Includes(s: string, sub: string)
    requires |sub| > 0
  {
    IndexOf(s, sub).Some?
  }

  /** `s.split(sep)` for a non-empty string separator. */
  function Split(s: string, sep: string): (parts: seq<string>)
    requires |sep| > 0
    ensures |parts| >= 1
    ensures forall j :: 0 <= j < |parts| ==> Free(parts[j], sep)
    decreases |s|
  {
    match IndexOf(s, sep)
    case None => [s]
    case Some(i) =>
      var head := s[..i];
      assert Free(head, sep) by {
        forall k: nat ensures !OccursAt(head, sep, k) {
          if OccursAt(head, sep, k) {
            assert s[k..k + |sep|] == head[k..k + |sep|];
            assert OccursAt(s, sep, k);
          }
        }
      }
      [head] + Split(s[i + |sep|..], sep)
  }

  /** `parts.join(sep)`. */
  function Join(parts: seq<string>, sep: string): string {
    if parts == [] then []
    else if |parts| == 1 then parts[0]
    else parts[0] + sep + Join(parts[1..], sep)
  }

  /** Splitting and joining with the same separator gives the string back. */
  lemma {:induction false} JoinSplit(s: string, sep: string)
    requires |sep| > 0
    ensures Join(Split(s, sep), sep) == s
    decreases |s|
  {
    match IndexOf(s, sep)
    case None =>
    case Some(i) =>
      var rest := s[i + |sep|..];
      var tail := Split(rest, sep);
      var parts := [s[..i]] + tail;
      assert Split(s, sep) == parts;
      assert |parts| > 1 && parts[0] == s[..i] && parts[1..] == tail;
      assert Join(parts, sep) == s[..i] + sep + Join(tail, sep);
      JoinSplit(rest, sep);
      assert s == s[..i] + s[i..i + |sep|] + rest;
  }

  /** Joining one more part appends the separator and that part. */
  lemma {:induction false} JoinAppend(parts: seq<string>, x: string, sep: string)
    requires parts != []
    ensures Join(parts + [x], sep) == Join(parts, sep) + sep + x
  {
    if |parts| == 1 {
      assert parts + [x] == [parts[0], x];
    } else {
      assert (parts + [x])[1..] == parts[1..] + [x];
      JoinAppend(parts[1..], x, sep);
    }
  }

  /** Leading whitespace followed by text that starts with a non-space is
      dropped as a whole. */
  lemma {:induction false} TrimStartSkips(ws: string, x: string)
    requires AllSpace(ws)
    requires x == [] || !IsSpace(x[0])
    ensures TrimStart(ws + x) == x
  {
    if ws == [] {
      assert ws + x == x;
    } else {
      assert (ws + x)[1..] == ws[1..] + x;
      TrimStartSkips(ws[1..], x);
    }
  }

  /** A token followed by whitespace, or by nothing, is what `[^\s]+` takes. */
  lemma {:induction false} TokenOf(word: string, tail: string)
    requires NoSpace(word)
    requires tail == [] || IsSpace(tail[0])
    ensures Token(word + tail) == word
  {
    if word == [] {
      assert word + tail == tail;
    } else {
      assert (word + tail)[1..] == word[1..] + tail;
      TokenOf(word[1..], tail);
      assert [word[0]] + word[1..] == word;
    }
  }

  /** Regrouping and slicing facts for the matcher proofs, kept as lemmas so
      that each is proved once rather than at every use. */
  lemma Concat4(a: string, b: string, c: string, d: string)
    ensures a + b + c + d == a + (b + (c + d))
  {
  }

  lemma SplitAt(s: string, k: nat)
    requires k <= |s|
    ensures s == s[..k] + s[k..]
  {
  }

  lemma Concat5(a: string, b: string, c: string, d: string, e: string)
    ensures a + b + c + d + e == a + (b + c + d + e)
  {
  }

  lemma HeadTail(head: string, tail: string)
    ensures (head + tail)[..|head|] == head && (head + tail)[|head|..] == tail
  {
  }
}
