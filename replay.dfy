// Replaying the buffered messages once the shard is ready (onReady,
// shard.ts lines 146-148). The loop is a for-of over the very array that
// onMessage appends to, so a message replayed for a guild that still has no
// matchers is buffered again, behind the others, and replayed in turn.

module Replay {
  import opened Router

  /** onMessage would buffer this message under this registry. */
  predicate WouldBuffer(reg: Registry, msg: Message) {
    !msg.authorIsBot && !msg.isDM && !Registered(reg, msg.guildId)
  }

  /** How many of the messages would still be buffered. */
  function Pending(reg: Registry, ms: seq<Message>): (n: nat)
    ensures n <= |ms|
  {
    if ms == [] then 0 else (if WouldBuffer(reg, ms[0]) then 1 else 0) + Pending(reg, ms[1..])
  }

  /** The second registry has every matcher entry of the first. */
  ghost predicate Grows(reg: Registry, reg2: Registry) {
    reg.commandRegex.Keys <= reg2.commandRegex.Keys && reg.prefixTestRegex.Keys <= reg2.prefixTestRegex.Keys
  }

  lemma {:induction false} PendingAppend(reg: Registry, a: seq<Message>, b: seq<Message>)
    ensures Pending(reg, a + b) == Pending(reg, a) + Pending(reg, b)
  {
    if a == [] {
      assert a + b == b;
    } else {
      assert (a + b)[0] == a[0] && (a + b)[1..] == a[1..] + b;
      PendingAppend(reg, a[1..], b);
    }
  }

  lemma {:induction false} PendingMonotone(reg: Registry, reg2: Registry, ms: seq<Message>)
    requires Grows(reg, reg2)
    ensures Pending(reg2, ms) <= Pending(reg, ms)
  {
    if ms != [] {
      PendingMonotone(reg, reg2, ms[1..]);
    }
  }

  /** No message is pending when none would be buffered. */
  lemma {:induction false} PendingZero(reg: Registry, ms: seq<Message>)
    ensures Pending(reg, ms) == 0 <==> forall j :: 0 <= j < |ms| ==> !WouldBuffer(reg, ms[j])
  {
    if ms != [] {
      PendingZero(reg, ms[1..]);
      assert forall j :: 1 <= j < |ms| ==> ms[1..][j - 1] == ms[j];
    }
  }

  /** One replayed message leaves fewer messages pending, or the same number
      with one less message left to visit. */
  lemma ReplayStepDecreases(reg: Registry, unprocessed: seq<Message>, i: nat, ctx: Context)
    requires i < |unprocessed|
    ensures var s := Dispatch(reg, unprocessed, ctx, unprocessed[i]);
      && i + 1 <= |s.unprocessed|
      && (Pending(s.registry, s.unprocessed[i + 1..]) < Pending(reg, unprocessed[i..])
          || (Pending(s.registry, s.unprocessed[i + 1..]) == Pending(reg, unprocessed[i..])
              && |s.unprocessed| - (i + 1) < |unprocessed| - i))
  {
    var msg := unprocessed[i];
    var s := Dispatch(reg, unprocessed, ctx, msg);
    DispatchState(reg, unprocessed, ctx, msg);
    assert unprocessed[i..] == [msg] + unprocessed[i + 1..];
    PendingAppend(reg, [msg], unprocessed[i + 1..]);
    if WouldBuffer(reg, msg) {
      assert s.unprocessed[i + 1..] == unprocessed[i + 1..] + [msg];
      PendingAppend(s.registry, unprocessed[i + 1..], [msg]);
      PendingMonotone(reg, s.registry, unprocessed[i + 1..]);
    }
  }

  /** The for-of loop from position `i`: each message, in order, goes through
      onMessage, which may append to the array being walked. */
  function ReplayFrom(reg: Registry, unprocessed: seq<Message>, i: nat, ctx: Context): Step
    requires i <= |unprocessed|
    decreases Pending(reg, unprocessed[i..]), |unprocessed| - i
  {
    if i == |unprocessed| then Step(reg, unprocessed, [])
    else
      var s := Dispatch(reg, unprocessed, ctx, unprocessed[i]);
      ReplayStepDecreases(reg, unprocessed, i, ctx);
      var t := ReplayFrom(s.registry, s.unprocessed, i + 1, ctx);
      Step(t.registry, t.unprocessed, s.effects + t.effects)
  }

  /** One step of the loop, and its end. */
  lemma ReplayUnfold(reg: Registry, unprocessed: seq<Message>, i: nat, ctx: Context)
    requires i <= |unprocessed|
    ensures i == |unprocessed| ==> ReplayFrom(reg, unprocessed, i, ctx) == Step(reg, unprocessed, [])
    ensures i < |unprocessed| ==>
      var s := Dispatch(reg, unprocessed, ctx, unprocessed[i]);
      var t := ReplayFrom(s.registry, s.unprocessed, i + 1, ctx);
      ReplayFrom(reg, unprocessed, i, ctx) == Step(t.registry, t.unprocessed, s.effects + t.effects)
  {
  }

  /** Each message handled with a registry that never changes, in order. */
  function DispatchAll(reg: Registry, ms: seq<Message>, ctx: Context): seq<Effect> {
    if ms == [] then [] else Dispatch(reg, [], ctx, ms[0]).effects + DispatchAll(reg, ms[1..], ctx)
  }

  lemma DispatchEffectsIgnoreBuffer(reg: Registry, u1: seq<Message>, u2: seq<Message>, ctx: Context, msg: Message)
    ensures Dispatch(reg, u1, ctx, msg).effects == Dispatch(reg, u2, ctx, msg).effects
  {
    DispatchState(reg, u1, ctx, msg);
    DispatchState(reg, u2, ctx, msg);
  }

  /** Replay only appends to the buffer it walks, which is never cleared,
      and only adds matchers. */
  lemma {:induction false} ReplayKeepsBuffer(reg: Registry, unprocessed: seq<Message>, i: nat, ctx: Context)
    requires i <= |unprocessed|
    ensures var r := ReplayFrom(reg, unprocessed, i, ctx);
      && |unprocessed| <= |r.unprocessed| && r.unprocessed[..|unprocessed|] == unprocessed
      && Grows(reg, r.registry)
    decreases Pending(reg, unprocessed[i..]), |unprocessed| - i
  {
    if i < |unprocessed| {
      var s := Dispatch(reg, unprocessed, ctx, unprocessed[i]);
      ReplayStepDecreases(reg, unprocessed, i, ctx);
      ReplayUnfold(reg, unprocessed, i, ctx);
      DispatchState(reg, unprocessed, ctx, unprocessed[i]);
      ReplayKeepsBuffer(s.registry, s.unprocessed, i + 1, ctx);
      var r := ReplayFrom(s.registry, s.unprocessed, i + 1, ctx);
      assert s.unprocessed[..|unprocessed|] == unprocessed;
      PrefixOfPrefix(r.unprocessed, s.unprocessed, unprocessed);
    }
  }

  lemma PrefixOfPrefix<T>(a: seq<T>, b: seq<T>, c: seq<T>)
    requires |b| <= |a| && a[..|b|] == b && |c| <= |b| && b[..|c|] == c
    ensures a[..|c|] == c
  {
    assert a[..|c|] == a[..|b|][..|c|];
  }

  /** Replay keeps the two tables paired. */
  lemma {:induction false} ReplayKeepsConsistent(reg: Registry, unprocessed: seq<Message>, i: nat, ctx: Context)
    requires i <= |unprocessed| && Consistent(reg)
    ensures Consistent(ReplayFrom(reg, unprocessed, i, ctx).registry)
    decreases Pending(reg, unprocessed[i..]), |unprocessed| - i
  {
    if i < |unprocessed| {
      var s := Dispatch(reg, unprocessed, ctx, unprocessed[i]);
      ReplayStepDecreases(reg, unprocessed, i, ctx);
      ReplayUnfold(reg, unprocessed, i, ctx);
      DispatchKeepsConsistent(reg, unprocessed, ctx, unprocessed[i]);
      ReplayKeepsConsistent(s.registry, s.unprocessed, i + 1, ctx);
    }
  }

  /** After replay no message from position `i` on would be buffered again:
      each replayed message's guild has matchers. */
  lemma {:induction false} ReplayLeavesNothingPending(reg: Registry, unprocessed: seq<Message>, i: nat, ctx: Context)
    requires i <= |unprocessed|
    ensures var r := ReplayFrom(reg, unprocessed, i, ctx);
      forall j :: i <= j < |r.unprocessed| ==> !WouldBuffer(r.registry, r.unprocessed[j])
    decreases Pending(reg, unprocessed[i..]), |unprocessed| - i
  {
    if i < |unprocessed| {
      var s := Dispatch(reg, unprocessed, ctx, unprocessed[i]);
      ReplayStepDecreases(reg, unprocessed, i, ctx);
      ReplayUnfold(reg, unprocessed, i, ctx);
      ReplayLeavesNothingPending(s.registry, s.unprocessed, i + 1, ctx);
      ReplayedMessageSettles(reg, unprocessed, i, ctx);
      var t := ReplayFrom(s.registry, s.unprocessed, i + 1, ctx);
      var r := ReplayFrom(reg, unprocessed, i, ctx);
      assert r.registry == t.registry && r.unprocessed == t.unprocessed;
      forall j | i <= j < |r.unprocessed|
        ensures !WouldBuffer(r.registry, r.unprocessed[j])
      {
      }
    }
  }

  /** The message replayed at position `i` stays at position `i`, and its
      guild still has matchers when the replay ends. */
  lemma ReplayedMessageSettles(reg: Registry, unprocessed: seq<Message>, i: nat, ctx: Context)
    requires i < |unprocessed|
    ensures var s := Dispatch(reg, unprocessed, ctx, unprocessed[i]);
      && i + 1 <= |s.unprocessed|
      && var r := ReplayFrom(s.registry, s.unprocessed, i + 1, ctx);
         i < |r.unprocessed| && !WouldBuffer(r.registry, r.unprocessed[i])
  {
    var msg := unprocessed[i];
    var s := Dispatch(reg, unprocessed, ctx, msg);
    DispatchState(reg, unprocessed, ctx, msg);
    ReplayKeepsBuffer(s.registry, s.unprocessed, i + 1, ctx);
    var r := ReplayFrom(s.registry, s.unprocessed, i + 1, ctx);
    assert s.unprocessed[i] == msg;
    assert r.unprocessed[i] == s.unprocessed[i] by {
      assert r.unprocessed[..|s.unprocessed|][i] == r.unprocessed[i];
    }
  }

  /** When no message would be buffered again, the replay changes neither
      the buffer nor the registry, and its effects are those of each buffered
      message handled in arrival order. */
  lemma {:induction false} QuietReplay(reg: Registry, unprocessed: seq<Message>, i: nat, ctx: Context)
    requires i <= |unprocessed|
    requires Pending(reg, unprocessed[i..]) == 0
    ensures ReplayFrom(reg, unprocessed, i, ctx) == Step(reg, unprocessed, DispatchAll(reg, unprocessed[i..], ctx))
    decreases |unprocessed| - i
  {
    if i < |unprocessed| {
      var msg := unprocessed[i];
      DispatchState(reg, unprocessed, ctx, msg);
      assert unprocessed[i..] == [msg] + unprocessed[i + 1..];
      PendingAppend(reg, [msg], unprocessed[i + 1..]);
      QuietReplay(reg, unprocessed, i + 1, ctx);
      DispatchEffectsIgnoreBuffer(reg, unprocessed, [], ctx, msg);
      assert unprocessed[i..][1..] == unprocessed[i + 1..];
    }
  }
}
