/** `Coltext::apply_effects`: one walk over the token list that resolves
    each `effect` token to an SGR sequence, turns tags with no known name
    into text, and resolves each `effect_stop` to the sequence that undoes
    the scope it closes. The walk is specified token by token by
    `StepToken`/`ResolveFrom`/`Resolve`; the method `ApplyEffects` is the
    loop of the source, proved equal to that specification. */
module Resolver {
  import opened Tokens
  import opened Ansi
  import Tokenizer

  /** An entry of the `effects` stack. The source pushes only effects; the
      corrected walk also pushes `Unknown` for a tag with no known name, so
      that its own close, and no other, is the one deleted. */
  datatype Scope = Known(effect: Effect) | Unknown

  /** The walk's variables: the `effects` stack, the colour histories
      `last_fg` and `last_bg`, and the `ignore_stop` flag. Stacks are
      sequences whose top is the last element. */
  datatype RState = RState(effects: seq<Scope>, lastFg: seq<Effect>, lastBg: seq<Effect>, ignoreStop: bool)

  /** The histories start seeded with the default colours. */
  const Seed: RState := RState([], [DefaultFg], [DefaultBg], false)

  /** A token of the output: kept (possibly rewritten) or erased from the
      list. */
  datatype Slot = Kept(token: Token) | Erased

  /** What stops the walk: `top()` or `pop()` on an empty `std::stack`
      (undefined behaviour), or `effect_off.at` on a missing key (an
      exception escaping a `noexcept` function). */
  datatype Failure = EmptyStack | NoTurnOff

  datatype Outcome = Ok(slot: Slot, next: RState) | Fail(failure: Failure)

  datatype Resolution = Resolved(slots: seq<Slot>, final: RState) | Failed(failure: Failure, index: nat)

  /** The tokenizer's guarantee the walk relies on: an effect value has a
      delimiter to drop and a first character to look at. */
  predicate Resolvable(ts: seq<Token>) {
    forall i :: 0 <= i < |ts| && ts[i].kind == Effect ==> |ts[i].value| >= 2
  }

  /** The name looked up for an effect value: the appended `(` or space
      dropped, then a leading `#` dropped. */
  function Name(value: string): (name: string)
    requires |value| >= 2
    ensures |name| < |value|
    ensures value[0] == '#' ==> name == value[1..|value| - 1]
    ensures value[0] != '#' ==> name == value[..|value| - 1]
  {
    var name := value[..|value| - 1];
    if name[0] == '#' then name[1..] else name
  }

  /** Pushes an opened effect, and onto its colour history when it is a
      colour. */
  function Open(st: RState, e: Effect): RState {
    var st' := st.(effects := st.effects + [Known(e)]);
    if IsBg(e) then st'.(lastBg := st.lastBg + [e])
    else if IsFg(e) then st'.(lastFg := st.lastFg + [e])
    else st'
  }

  /** An `effect` token. */
  function StepEffect(t: Token, st: RState, rev: Revision): Outcome
    requires t.kind == Effect && |t.value| >= 2
  {
    var name := Name(t.value);
    if name !in NameToEffect then
      // left as text, raw value and all; the close it opened is dropped
      if rev == AsWritten then Ok(Kept(Token(Text, t.value)), st.(ignoreStop := true))
      else Ok(Kept(Token(Text, t.value)), st.(effects := st.effects + [Unknown]))
    else
      var e := NameToEffect[name];
      Ok(Kept(Token(Effect, Sgr(Code(e)))), Open(st, e))
  }

  /** An `effect_stop` token: ignored after an unknown tag, else it pops the
      scope it closes. */
  function StepStop(st: RState, rev: Revision): Outcome {
    if rev == AsWritten && st.ignoreStop then
      Ok(Erased, st.(ignoreStop := false))
    else if st.effects == [] then
      Fail(EmptyStack)
    else
      var rest := st.effects[..|st.effects| - 1];
      match st.effects[|st.effects| - 1]
      case Unknown => Ok(Erased, st.(effects := rest))
      case Known(e) =>
        match Close(e, st.(effects := rest))
        case Stuck(f) => Fail(f)
        case Undo(off, next) => Ok(StopSlot(off), next)
  }

  /** The slot of a resolved stop: the escape code of the effect that undoes
      the closed scope. */
  function StopSlot(e: Effect): Slot {
    Kept(Token(EffectStop, Sgr(Code(e))))
  }

  /** The effect that undoes a closed scope, and the state after it. */
  datatype Closing = Undo(off: Effect, next: RState) | Stuck(failure: Failure)

  /** Closing a scope of `e`, already popped from `effects`: a colour pops
      its history and restores the colour now on top; a style turns off. */
  function Close(e: Effect, st: RState): Closing {
    if IsBg(e) then
      if |st.lastBg| < 2 then Stuck(EmptyStack)
      else
        var bg := st.lastBg[..|st.lastBg| - 1];
        Undo(bg[|bg| - 1], st.(lastBg := bg))
    else if IsFg(e) then
      if |st.lastFg| < 2 then Stuck(EmptyStack)
      else
        var fg := st.lastFg[..|st.lastFg| - 1];
        Undo(fg[|fg| - 1], st.(lastFg := fg))
    else if e in EffectOff then
      Undo(EffectOff[e], st)
    else
      Stuck(NoTurnOff)
  }

  /** One pass of the walk's loop. */
  function StepToken(t: Token, st: RState, rev: Revision): Outcome
    requires t.kind == Effect ==> |t.value| >= 2
  {
    match t.kind
    case Text => Ok(Kept(t), st)
    case Effect => StepEffect(t, st, rev)
    case EffectStop => StepStop(st, rev)
  }

  /** The walk from index `k`, with the slots for the tokens before `k`
      already in `acc`. */
  function ResolveFrom(ts: seq<Token>, k: nat, st: RState, acc: seq<Slot>, rev: Revision): Resolution
    requires k <= |ts| && Resolvable(ts)
    decreases |ts| - k
  {
    if k == |ts| then Resolved(acc, st)
    else
      match StepToken(ts[k], st, rev)
      case Fail(f) => Failed(f, k)
      case Ok(slot, next) => ResolveFrom(ts, k + 1, next, acc + [slot], rev)
  }

  /** What `apply_effects` does to the token list `ts`. */
  function Resolve(ts: seq<Token>, rev: Revision): Resolution
    requires Resolvable(ts)
  {
    ResolveFrom(ts, 0, Seed, [], rev)
  }

  /** Every token list the tokenizer emits can be walked. */
  lemma WellFormedResolvable(ts: seq<Token>)
    requires Tokenizer.AllWellFormed(ts)
    ensures Resolvable(ts)
  {
    forall i | 0 <= i < |ts| && ts[i].kind == Effect
      ensures |ts[i].value| >= 2
    {
      assert Tokenizer.WellFormed(ts[i]);
    }
  }

  // ---------------------------------------------------------------------
  // The loop

  /** The effect branch of the loop body: strip the name, look it up, and
      either leave the token as text or push the effect. */
  method ResolveEffect(t: Token, st: RState, rev: Revision) returns (o: Outcome)
    requires t.kind == Effect && |t.value| >= 2
    ensures o == StepEffect(t, st, rev)
  {
    var name := t.value[..|t.value| - 1];
    if name[0] == '#' {
      name := name[1..];
    }
    assert name == Name(t.value);
    if name !in NameToEffect {
      if rev == AsWritten {
        return Ok(Kept(Token(Text, t.value)), st.(ignoreStop := true));
      } else {
        return Ok(Kept(Token(Text, t.value)), st.(effects := st.effects + [Unknown]));
      }
    }
    var e := NameToEffect[name];
    var next := OpenScope(st, e);
    o := Ok(Kept(Token(Effect, Sgr(Code(e)))), next);
  }

  /** Pushes `e` onto `effects`, and onto `last_bg` or `last_fg` when it is
      a colour. */
  method OpenScope(st: RState, e: Effect) returns (next: RState)
    ensures next == Open(st, e)
  {
    var effects, lastFg, lastBg := st.effects, st.lastFg, st.lastBg;
    effects := effects + [Known(e)];
    if IsBg(e) {
      lastBg := lastBg + [e];
    } else if IsFg(e) {
      lastFg := lastFg + [e];
    }
    next := RState(effects, lastFg, lastBg, st.ignoreStop);
  }

  /** The stop branch of the loop body: drop it when a stop is being
      ignored, otherwise pop the scope it closes. */
  method ResolveStop(st: RState, rev: Revision) returns (o: Outcome)
    ensures o == StepStop(st, rev)
  {
    if rev == AsWritten && st.ignoreStop {
      return Ok(Erased, st.(ignoreStop := false));
    }
    var effects := st.effects;
    if effects == [] {
      return Fail(EmptyStack);
    }
    var top := effects[|effects| - 1];
    effects := effects[..|effects| - 1];
    if top == Unknown {
      return Ok(Erased, st.(effects := effects));
    }
    var c := CloseScope(top.effect, st.(effects := effects));
    if c.Stuck? {
      return Fail(c.failure);
    }
    o := Ok(StopSlot(c.off), c.next);
  }

  /** The rest of the stop branch: find the effect that undoes `e`. */
  method CloseScope(e: Effect, st: RState) returns (c: Closing)
    ensures c == Close(e, st)
  {
    var lastFg, lastBg := st.lastFg, st.lastBg;
    var off := e;
    if IsBg(e) {
      if |lastBg| < 2 {
        return Stuck(EmptyStack);
      }
      lastBg := lastBg[..|lastBg| - 1];
      off := lastBg[|lastBg| - 1];
    } else if IsFg(e) {
      if |lastFg| < 2 {
        return Stuck(EmptyStack);
      }
      lastFg := lastFg[..|lastFg| - 1];
      off := lastFg[|lastFg| - 1];
    } else if e in EffectOff {
      off := EffectOff[e];
    } else {
      return Stuck(NoTurnOff);
    }
    c := Undo(off, st.(lastFg := lastFg, lastBg := lastBg));
  }

  /** The loop body: text passes through; effects and stops go to the two
      branches above. */
  method ResolveToken(t: Token, st: RState, rev: Revision) returns (o: Outcome)
    requires t.kind == Effect ==> |t.value| >= 2
    ensures o == StepToken(t, st, rev)
  {
    if t.kind == Text {
      o := Ok(Kept(t), st);
    } else if t.kind == Effect {
      o := ResolveEffect(t, st, rev);
    } else {
      o := ResolveStop(st, rev);
    }
  }

  /** `Coltext::apply_effects`: the `while` loop over the token list. The
      output has one slot per input token; an erased token leaves an
      `Erased` slot. */
  method ApplyEffects(ts: seq<Token>, rev: Revision) returns (r: Resolution)
    requires Resolvable(ts)
    ensures r == Resolve(ts, rev)
  {
    var st := Seed;
    var out: seq<Slot> := [];
    var k := 0;
    while k < |ts|
      invariant 0 <= k <= |ts|
      invariant ResolveFrom(ts, k, st, out, rev) == Resolve(ts, rev)
    {
      var o := ResolveToken(ts[k], st, rev);
      if o.Fail? {
        return Failed(o.failure, k);
      }
      out := out + [o.slot];
      st := o.next;
      k := k + 1;
    }
    r := Resolved(out, st);
  }

  // ---------------------------------------------------------------------
  // What becomes of each token

  /** What the walk makes of one token: text is untouched; a tag with a
      known name becomes the escape code of its effect; a tag with no known
      name becomes a text token with its raw value; a stop is erased or
      becomes an escape code. */
  predicate SlotOf(t: Token, slot: Slot)
    requires t.kind == Effect ==> |t.value| >= 2
  {
    match t.kind
    case Text => slot == Kept(t)
    case Effect =>
      var name := Name(t.value);
      if name in NameToEffect then slot == Kept(Token(Effect, Sgr(Code(NameToEffect[name]))))
      else slot == Kept(Token(Text, t.value))
    case EffectStop => slot == Erased || (slot.token.kind == EffectStop && IsSgr(slot.token.value))
  }

  lemma StepSlot(t: Token, st: RState, rev: Revision)
    requires t.kind == Effect ==> |t.value| >= 2
    ensures StepToken(t, st, rev).Ok? ==> SlotOf(t, StepToken(t, st, rev).slot)
  {
    if t.kind == EffectStop && st.effects != [] && st.effects[|st.effects| - 1].Known? {
      var c := Close(st.effects[|st.effects| - 1].effect, st.(effects := st.effects[..|st.effects| - 1]));
      if c.Undo? {
        SgrRoundTrip(Code(c.off));
      }
    }
  }

  lemma {:induction false} ResolveFromSlots(ts: seq<Token>, k: nat, st: RState, acc: seq<Slot>, rev: Revision)
    requires k <= |ts| && Resolvable(ts)
    requires |acc| == k && forall i :: 0 <= i < k ==> SlotOf(ts[i], acc[i])
    ensures var r := ResolveFrom(ts, k, st, acc, rev);
      r.Resolved? ==> |r.slots| == |ts| && forall i :: 0 <= i < |ts| ==> SlotOf(ts[i], r.slots[i])
    decreases |ts| - k
  {
    if k < |ts| {
      var o := StepToken(ts[k], st, rev);
      if o.Ok? {
        StepSlot(ts[k], st, rev);
        ResolveFromSlots(ts, k + 1, o.next, acc + [o.slot], rev);
      }
    }
  }

  /** A walk that completes has one slot per token, each what `SlotOf`
      says: text untouched, tags resolved or left as raw text, stops erased
      or resolved. */
  lemma ResolvedSlots(ts: seq<Token>, rev: Revision)
    requires Resolvable(ts)
    ensures var r := Resolve(ts, rev);
      r.Resolved? ==> |r.slots| == |ts| && forall i :: 0 <= i < |ts| ==> SlotOf(ts[i], r.slots[i])
  {
    ResolveFromSlots(ts, 0, Seed, [], rev);
  }

  // ---------------------------------------------------------------------
  // The colour histories

  /** The foreground colours among the open scopes, outermost first. */
  function FgOf(scopes: seq<Scope>): seq<Effect> {
    if scopes == [] then []
    else
      var s := scopes[|scopes| - 1];
      FgOf(scopes[..|scopes| - 1]) + (if s.Known? && IsFg(s.effect) then [s.effect] else [])
  }

  /** The background colours among the open scopes, outermost first. */
  function BgOf(scopes: seq<Scope>): seq<Effect> {
    if scopes == [] then []
    else
      var s := scopes[|scopes| - 1];
      BgOf(scopes[..|scopes| - 1]) + (if s.Known? && IsBg(s.effect) then [s.effect] else [])
  }

  /** The foreground colour in force inside `scopes`: that of the innermost
      open foreground scope, or the terminal default. */
  function EnclosingFg(scopes: seq<Scope>): Effect {
    if scopes == [] then DefaultFg
    else
      var s := scopes[|scopes| - 1];
      if s.Known? && IsFg(s.effect) then s.effect else EnclosingFg(scopes[..|scopes| - 1])
  }

  /** The background colour in force inside `scopes`. */
  function EnclosingBg(scopes: seq<Scope>): Effect {
    if scopes == [] then DefaultBg
    else
      var s := scopes[|scopes| - 1];
      if s.Known? && IsBg(s.effect) then s.effect else EnclosingBg(scopes[..|scopes| - 1])
  }

  /** The invariant of the walk: each history is its seed followed by the
      colours of the open scopes, and every open effect can be closed. */
  predicate Synced(st: RState) {
    st.lastFg == [DefaultFg] + FgOf(st.effects) &&
    st.lastBg == [DefaultBg] + BgOf(st.effects) &&
    forall i :: 0 <= i < |st.effects| && st.effects[i].Known? ==> Closable(st.effects[i].effect)
  }

  lemma {:induction false} TopIsEnclosing(scopes: seq<Scope>)
    ensures ([DefaultFg] + FgOf(scopes))[|FgOf(scopes)|] == EnclosingFg(scopes)
    ensures ([DefaultBg] + BgOf(scopes))[|BgOf(scopes)|] == EnclosingBg(scopes)
  {
    TopIsEnclosingFg(scopes);
    TopIsEnclosingBg(scopes);
  }

  lemma {:induction false} TopIsEnclosingFg(scopes: seq<Scope>)
    ensures ([DefaultFg] + FgOf(scopes))[|FgOf(scopes)|] == EnclosingFg(scopes)
  {
    if scopes != [] {
      TopIsEnclosingFg(scopes[..|scopes| - 1]);
    }
  }

  lemma {:induction false} TopIsEnclosingBg(scopes: seq<Scope>)
    ensures ([DefaultBg] + BgOf(scopes))[|BgOf(scopes)|] == EnclosingBg(scopes)
  {
    if scopes != [] {
      TopIsEnclosingBg(scopes[..|scopes| - 1]);
    }
  }


  lemma PushScope(scopes: seq<Scope>, s: Scope)
    ensures FgOf(scopes + [s]) == FgOf(scopes) + (if s.Known? && IsFg(s.effect) then [s.effect] else [])
    ensures BgOf(scopes + [s]) == BgOf(scopes) + (if s.Known? && IsBg(s.effect) then [s.effect] else [])
  {
    assert (scopes + [s])[..|scopes|] == scopes;
  }

  lemma ColourPlanesDisjoint(e: Effect)
    ensures !(IsFg(e) && IsBg(e))
  {
  }

  /** Pushing a scope that can be closed keeps every open effect closable. */
  lemma PushClosable(scopes: seq<Scope>, s: Scope)
    requires forall i :: 0 <= i < |scopes| && scopes[i].Known? ==> Closable(scopes[i].effect)
    requires s.Known? ==> Closable(s.effect)
    ensures forall i :: 0 <= i < |scopes + [s]| && (scopes + [s])[i].Known? ==> Closable((scopes + [s])[i].effect)
  {
    var n := scopes + [s];
    forall i | 0 <= i < |n| && n[i].Known?
      ensures Closable(n[i].effect)
    {
      if i < |scopes| {
        assert n[i] == scopes[i];
      } else {
        assert n[i] == s;
      }
    }
  }

  /** Opening an effect pushes it onto the history of its colour plane,
      if any, exactly as it is pushed onto `effects`. */
  lemma OpenHistories(st: RState, e: Effect)
    requires st.lastFg == [DefaultFg] + FgOf(st.effects)
    requires st.lastBg == [DefaultBg] + BgOf(st.effects)
    ensures Open(st, e).effects == st.effects + [Known(e)]
    ensures Open(st, e).lastFg == [DefaultFg] + FgOf(Open(st, e).effects)
    ensures Open(st, e).lastBg == [DefaultBg] + BgOf(Open(st, e).effects)
  {
    PushScope(st.effects, Known(e));
    ColourPlanesDisjoint(e);
  }

  lemma OpenKeepsSynced(st: RState, e: Effect)
    requires Synced(st) && Closable(e)
    ensures Synced(Open(st, e))
  {
    OpenHistories(st, e);
    PushClosable(st.effects, Known(e));
  }

  lemma StepEffectKeepsSynced(t: Token, st: RState, rev: Revision)
    requires Synced(st) && t.kind == Effect && |t.value| >= 2
    ensures StepEffect(t, st, rev).Ok? && Synced(StepEffect(t, st, rev).next)
  {
    var name := Name(t.value);
    if name in NameToEffect {
      EffectOffTotal(name);
      OpenKeepsSynced(st, NameToEffect[name]);
    } else if rev == Corrected {
      PushScope(st.effects, Unknown);
      PushClosable(st.effects, Unknown);
    }
  }

  lemma PopScope(st: RState)
    requires Synced(st) && st.effects != []
    ensures var rest := st.effects[..|st.effects| - 1];
      var top := st.effects[|st.effects| - 1];
      st.lastFg == [DefaultFg] + FgOf(rest) + (if top.Known? && IsFg(top.effect) then [top.effect] else []) &&
      st.lastBg == [DefaultBg] + BgOf(rest) + (if top.Known? && IsBg(top.effect) then [top.effect] else []) &&
      (top.Known? ==> Closable(top.effect)) &&
      forall i :: 0 <= i < |rest| && rest[i].Known? ==> Closable(rest[i].effect)
  {
    var rest := st.effects[..|st.effects| - 1];
    assert st.effects == rest + [st.effects[|st.effects| - 1]];
    PushScope(rest, st.effects[|st.effects| - 1]);
  }

  /** Closing an open effect `e` whose scope has just been popped: a colour
      pops its history, which exposes the colour in force around the scope
      (the default when none is left); a style has a turn-off effect. */
  lemma CloseKnownRestores(e: Effect, st: RState)
    requires Closable(e)
    requires st.lastFg == [DefaultFg] + FgOf(st.effects) + (if IsFg(e) then [e] else [])
    requires st.lastBg == [DefaultBg] + BgOf(st.effects) + (if IsBg(e) then [e] else [])
    ensures Close(e, st).Undo?
    ensures Close(e, st).next == st.(lastFg := [DefaultFg] + FgOf(st.effects), lastBg := [DefaultBg] + BgOf(st.effects))
    ensures IsFg(e) ==> Close(e, st).off == EnclosingFg(st.effects)
    ensures IsBg(e) ==> Close(e, st).off == EnclosingBg(st.effects)
    ensures !IsFg(e) && !IsBg(e) ==> e in EffectOff && Close(e, st).off == EffectOff[e]
  {
    ColourPlanesDisjoint(e);
    if IsBg(e) {
      CloseBgRestores(e, st);
    } else if IsFg(e) {
      CloseFgRestores(e, st);
    }
  }

  lemma CloseBgRestores(e: Effect, st: RState)
    requires IsBg(e) && !IsFg(e)
    requires st.lastBg == [DefaultBg] + BgOf(st.effects) + [e]
    ensures Close(e, st) == Undo(EnclosingBg(st.effects), st.(lastBg := [DefaultBg] + BgOf(st.effects)))
  {
    TopIsEnclosing(st.effects);
    assert st.lastBg[..|st.lastBg| - 1] == [DefaultBg] + BgOf(st.effects);
  }

  lemma CloseFgRestores(e: Effect, st: RState)
    requires IsFg(e) && !IsBg(e)
    requires st.lastFg == [DefaultFg] + FgOf(st.effects) + [e]
    ensures Close(e, st) == Undo(EnclosingFg(st.effects), st.(lastFg := [DefaultFg] + FgOf(st.effects)))
  {
    TopIsEnclosing(st.effects);
    assert st.lastFg[..|st.lastFg| - 1] == [DefaultFg] + FgOf(st.effects);
  }

  /** A stop that is not ignored fails exactly when no scope is open, and
      otherwise pops one scope and keeps the histories in step. */
  lemma StopKeepsSynced(st: RState, rev: Revision)
    requires Synced(st) && !(rev == AsWritten && st.ignoreStop)
    ensures StepStop(st, rev).Fail? <==> st.effects == []
    ensures StepStop(st, rev).Ok? ==>
      Synced(StepStop(st, rev).next) && StepStop(st, rev).next.effects == st.effects[..|st.effects| - 1]
  {
    if st.effects != [] {
      PopScope(st);
      var rest := st.effects[..|st.effects| - 1];
      var top := st.effects[|st.effects| - 1];
      if top.Known? {
        CloseKnownRestores(top.effect, st.(effects := rest));
      }
    }
  }

  /** What a stop emits: for a colour, the colour in force around the
      closed scope, or the default when none is left; for a style, its
      turn-off effect; for the scope of an unknown tag, nothing. */
  lemma CloseRestores(st: RState, rev: Revision)
    requires Synced(st) && !(rev == AsWritten && st.ignoreStop) && st.effects != []
    ensures var o := StepStop(st, rev);
      var top := st.effects[|st.effects| - 1];
      var rest := st.effects[..|st.effects| - 1];
      o.Ok? &&
      (top == Unknown ==> o.slot == Erased) &&
      (top.Known? && IsFg(top.effect) ==> o.slot == StopSlot(EnclosingFg(rest))) &&
      (top.Known? && IsBg(top.effect) ==> o.slot == StopSlot(EnclosingBg(rest))) &&
      (top.Known? && !IsFg(top.effect) && !IsBg(top.effect) ==>
        top.effect in EffectOff && o.slot == StopSlot(EffectOff[top.effect]))
  {
    PopScope(st);
    var rest := st.effects[..|st.effects| - 1];
    var top := st.effects[|st.effects| - 1];
    if top.Known? {
      CloseKnownRestores(top.effect, st.(effects := rest));
    }
  }

  /** One step keeps the invariant, and fails only at a stop that finds
      no open scope. */
  lemma StepKeepsSynced(t: Token, st: RState, rev: Revision)
    requires Synced(st) && (t.kind == Effect ==> |t.value| >= 2)
    ensures var o := StepToken(t, st, rev);
      (o.Ok? ==> Synced(o.next)) &&
      (o.Fail? ==> o.failure == EmptyStack && t.kind == EffectStop && st.effects == [])
  {
    if t.kind == Effect {
      StepEffectKeepsSynced(t, st, rev);
    } else if t.kind == EffectStop && !(rev == AsWritten && st.ignoreStop) {
      StopKeepsSynced(st, rev);
    }
  }

  lemma {:induction false} ResolveFromSynced(ts: seq<Token>, k: nat, st: RState, acc: seq<Slot>, rev: Revision)
    requires k <= |ts| && Resolvable(ts) && Synced(st)
    ensures var r := ResolveFrom(ts, k, st, acc, rev);
      (r.Resolved? ==> Synced(r.final)) &&
      (r.Failed? ==> r.failure == EmptyStack && k <= r.index < |ts| && ts[r.index].kind == EffectStop)
    decreases |ts| - k
  {
    if k < |ts| {
      StepKeepsSynced(ts[k], st, rev);
      var o := StepToken(ts[k], st, rev);
      if o.Ok? {
        ResolveFromSynced(ts, k + 1, o.next, acc + [o.slot], rev);
      }
    }
  }

  /** Over the whole walk the histories keep their seeds at the bottom and
      track the open colours, `effect_off.at` never misses, and the only
      failure is `EmptyStack` at a stop token (see `StepKeepsSynced`). */
  lemma WalkKeepsHistories(ts: seq<Token>, rev: Revision)
    requires Resolvable(ts)
    ensures var r := Resolve(ts, rev);
      (r.Resolved? ==> Synced(r.final) && r.final.lastFg[0] == DefaultFg && r.final.lastBg[0] == DefaultBg) &&
      (r.Failed? ==> r.failure == EmptyStack && r.index < |ts| && ts[r.index].kind == EffectStop)
  {
    ResolveFromSynced(ts, 0, Seed, [], rev);
  }

  // ---------------------------------------------------------------------
  // The corrected walk over balanced tokens

  /** In the corrected walk a tag always pushes exactly one scope. */
  lemma CorrectedEffectPushes(t: Token, st: RState)
    requires t.kind == Effect && |t.value| >= 2
    ensures var o := StepEffect(t, st, Corrected);
      o.Ok? && |o.next.effects| == |st.effects| + 1 && o.next.ignoreStop == st.ignoreStop
  {
    var name := Name(t.value);
    if name in NameToEffect {
      var e := NameToEffect[name];
      assert StepEffect(t, st, Corrected).next == Open(st, e);
      assert Open(st, e).effects == st.effects + [Known(e)];
    } else {
      assert StepEffect(t, st, Corrected).next == st.(effects := st.effects + [Unknown]);
    }
  }

  lemma CorrectedStep(t: Token, st: RState)
    requires Synced(st) && !st.ignoreStop && (t.kind == Effect ==> |t.value| >= 2)
    requires t.kind == EffectStop ==> st.effects != []
    ensures var o := StepToken(t, st, Corrected);
      o.Ok? && Synced(o.next) && !o.next.ignoreStop && |o.next.effects| == |st.effects| + Weight(t)
  {
    if t.kind == Effect {
      StepEffectKeepsSynced(t, st, Corrected);
      CorrectedEffectPushes(t, st);
    } else if t.kind == EffectStop {
      StopKeepsSynced(st, Corrected);
    }
  }

  /** In the corrected walk every `effect` pushes one scope and every stop
      pops one, so the `effects` stack is as deep as the tokens read so far
      leave open. */
  lemma {:induction false} CorrectedWalk(ts: seq<Token>, k: nat, st: RState, acc: seq<Slot>)
    requires k <= |ts| && Resolvable(ts) && NeverNegative(ts[..k])
    requires Synced(st) && !st.ignoreStop && |st.effects| == Depth(ts[..k])
    ensures var r := ResolveFrom(ts, k, st, acc, Corrected);
      (r.Resolved? <==> NeverNegative(ts)) &&
      (r.Resolved? ==> Synced(r.final) && !r.final.ignoreStop && |r.final.effects| == Depth(ts)) &&
      (r.Failed? ==> (r.failure == EmptyStack && k <= r.index < |ts| && ts[r.index].kind == EffectStop &&
        NeverNegative(ts[..r.index]) && Depth(ts[..r.index]) == 0))
    decreases |ts| - k
  {
    if k == |ts| {
      assert ts[..k] == ts;
    } else {
      assert ts[..k + 1] == ts[..k] + [ts[k]];
      Push(ts[..k], ts[k]);
      if ts[k].kind == EffectStop && st.effects == [] {
        StopKeepsSynced(st, Corrected);
        if NeverNegative(ts) {
          NeverNegativePrefix(ts, k + 1);
        }
      } else {
        CorrectedStep(ts[k], st);
        var o := StepToken(ts[k], st, Corrected);
        CorrectedWalk(ts, k + 1, o.next, acc + [o.slot]);
      }
    }
  }

  /** With each unknown tag's scope kept on the `effects` stack, the walk
      reaches the end exactly when no prefix of the tokens closes more
      scopes than it opened. */
  lemma ResolvesIffNeverNegative(ts: seq<Token>)
    requires Resolvable(ts)
    ensures Resolve(ts, Corrected).Resolved? <==> NeverNegative(ts)
  {
    assert ts[..0] == [];
    CorrectedWalk(ts, 0, Seed, []);
  }

  /** ... and when it does not, it stops at the first stop token that
      closes more scopes than were opened before it, where the `effects`
      stack is empty; it never misses a turn-off effect. */
  lemma CorrectedFailsOnlyAtStop(ts: seq<Token>)
    requires Resolvable(ts)
    ensures var r := Resolve(ts, Corrected);
      r.Failed? ==> (r.failure == EmptyStack && r.index < |ts| && ts[r.index].kind == EffectStop &&
        NeverNegative(ts[..r.index]) && Depth(ts[..r.index]) == 0)
  {
    assert ts[..0] == [];
    CorrectedWalk(ts, 0, Seed, []);
  }

  /** A balanced token list is always walked to the end, and the walk ends
      with the stacks back at their seeds. */
  lemma CorrectedResolvesBalanced(ts: seq<Token>)
    requires Resolvable(ts) && Balanced(ts)
    ensures Resolve(ts, Corrected).Resolved? && Resolve(ts, Corrected).final == Seed
  {
    assert ts[..0] == [];
    CorrectedWalk(ts, 0, Seed, []);
  }

  // ---------------------------------------------------------------------
  // Where the two walks agree

  /** Every tag in `ts` has a known name. */
  predicate AllNamesKnown(ts: seq<Token>) {
    forall i :: 0 <= i < |ts| && ts[i].kind == Effect ==> |ts[i].value| >= 2 && Name(ts[i].value) in NameToEffect
  }

  lemma {:induction false} AgreeFrom(ts: seq<Token>, k: nat, st: RState, acc: seq<Slot>)
    requires k <= |ts| && Resolvable(ts) && AllNamesKnown(ts) && !st.ignoreStop
    ensures ResolveFrom(ts, k, st, acc, AsWritten) == ResolveFrom(ts, k, st, acc, Corrected)
    decreases |ts| - k
  {
    if k < |ts| {
      var o := StepToken(ts[k], st, AsWritten);
      assert o == StepToken(ts[k], st, Corrected);
      if o.Ok? {
        assert !o.next.ignoreStop;
        AgreeFrom(ts, k + 1, o.next, acc + [o.slot]);
      }
    }
  }

  /** The correction changes nothing for token lists whose tags all have
      known names: there `ignore_stop` is never set and no unknown scope is
      pushed. */
  lemma AgreesWithoutUnknownTags(ts: seq<Token>)
    requires Resolvable(ts) && AllNamesKnown(ts)
    ensures Resolve(ts, AsWritten) == Resolve(ts, Corrected)
  {
    AgreeFrom(ts, 0, Seed, []);
  }

  /** Where every tag name is known the code as written walks the same
      way, so it too reaches the end exactly when no prefix closes more
      scopes than it opened. */
  lemma KnownNamesResolveIffNeverNegative(ts: seq<Token>)
    requires Resolvable(ts) && AllNamesKnown(ts)
    ensures Resolve(ts, AsWritten).Resolved? <==> NeverNegative(ts)
  {
    AgreesWithoutUnknownTags(ts);
    ResolvesIffNeverNegative(ts);
  }

  // ---------------------------------------------------------------------
  // Where the walk as written ends

  /** One step as written, with `lag` the scopes opened by unknown tags
      whose close is still pending (at least one while `ignore_stop` is
      raised): open scopes plus the lag move by the token's weight. */
  lemma AsWrittenStep(t: Token, st: RState, lag: nat) returns (lag': nat)
    requires t.kind == Effect ==> |t.value| >= 2
    requires Synced(st) && (st.ignoreStop ==> lag >= 1)
    ensures var o := StepToken(t, st, AsWritten);
      o.Ok? ==> Synced(o.next) && (o.next.ignoreStop ==> lag' >= 1) &&
                |o.next.effects| + lag' == |st.effects| + lag + Weight(t)
  {
    StepKeepsSynced(t, st, AsWritten);
    if t.kind == Effect && Name(t.value) !in NameToEffect {
      lag' := lag + 1;
    } else if t.kind == EffectStop && st.ignoreStop {
      lag' := lag - 1;
    } else {
      lag' := lag;
      if t.kind == Effect {
        OpenHistories(st, NameToEffect[Name(t.value)]);
      }
    }
  }

  /** The walk as written from index `k`: open scopes plus `lag` is the
      depth of the tokens already walked, so a completed walk ends with at
      most the depth of the whole list in open scopes and raised flag. */
  lemma {:induction false} AsWrittenWalk(ts: seq<Token>, k: nat, st: RState, acc: seq<Slot>, lag: nat)
    requires k <= |ts| && Resolvable(ts) && Synced(st)
    requires st.ignoreStop ==> lag >= 1
    requires |st.effects| + lag == Depth(ts[..k])
    ensures var r := ResolveFrom(ts, k, st, acc, AsWritten);
      r.Resolved? ==> Synced(r.final) && |r.final.effects| + (if r.final.ignoreStop then 1 else 0) <= Depth(ts)
    decreases |ts| - k
  {
    if k == |ts| {
      assert ts[..k] == ts;
    } else {
      assert ts[..k + 1] == ts[..k] + [ts[k]];
      Push(ts[..k], ts[k]);
      var next := AsWrittenStep(ts[k], st, lag);
      var o := StepToken(ts[k], st, AsWritten);
      if o.Ok? {
        AsWrittenWalk(ts, k + 1, o.next, acc + [o.slot], next);
      }
    }
  }

  /** As written, whenever the walk over a tokenized input completes it
      ends where it started: no open scope, both histories back at their
      seeds and `ignore_stop` clear. */
  lemma AsWrittenEndsAtSeed(s: string)
    ensures Resolvable(Tokenizer.Tokenized(s, AsWritten))
    ensures Resolve(Tokenizer.Tokenized(s, AsWritten), AsWritten).Resolved? ==>
      Resolve(Tokenizer.Tokenized(s, AsWritten), AsWritten).final == Seed
  {
    var ts := Tokenizer.Tokenized(s, AsWritten);
    Tokenizer.TokenizedWellFormed(s, AsWritten);
    WellFormedResolvable(ts);
    Tokenizer.CounterTracksDepth(s, AsWritten);
    assert ts[..0] == [];
    AsWrittenWalk(ts, 0, Seed, [], 0);
  }

  // ---------------------------------------------------------------------
  // Two unknown tags in a row

  /** A tag whose name is not in the table is kept as text with its raw
      value, appended `(` or space included; no stack changes. As written it
      raises `ignore_stop`; corrected it opens an unknown scope. */
  lemma UnknownNameStep(t: Token, st: RState, rev: Revision)
    requires t.kind == Effect && |t.value| >= 2 && Name(t.value) !in NameToEffect
    ensures StepToken(t, st, rev) == Ok(Kept(Token(Text, t.value)),
      if rev == AsWritten then st.(ignoreStop := true) else st.(effects := st.effects + [Unknown]))
  {
  }

  /** An unknown two-letter tag `#xy(` opening a scope: it stays text with
      its raw value. */
  lemma UnknownTagStep(t: Token, st: RState, rev: Revision)
    requires t.kind == Effect && |t.value| == 4 && t.value[0] == '#' && t.value[1] != 'b'
    ensures StepToken(t, st, rev) == Ok(Kept(Token(Text, t.value)),
      if rev == AsWritten then st.(ignoreStop := true) else st.(effects := st.effects + [Unknown]))
  {
    TwoLetterNamesAreBright(Name(t.value));
    UnknownNameStep(t, st, rev);
  }

  /** One step of the walk, taken when the token at `k` resolves. */
  lemma ResolveOnce(ts: seq<Token>, k: nat, st: RState, acc: seq<Slot>, rev: Revision, slot: Slot, next: RState)
    requires k < |ts| && Resolvable(ts) && StepToken(ts[k], st, rev) == Ok(slot, next)
    ensures ResolveFrom(ts, k, st, acc, rev) == ResolveFrom(ts, k + 1, next, acc + [slot], rev)
  {
  }

  /** The walk past an unknown two-letter tag. */
  lemma UnknownTagOnce(ts: seq<Token>, k: nat, st: RState, acc: seq<Slot>, rev: Revision, next: RState)
    requires k < |ts| && Resolvable(ts)
    requires ts[k].kind == Effect && |ts[k].value| == 4 && ts[k].value[0] == '#' && ts[k].value[1] != 'b'
    requires next == if rev == AsWritten then st.(ignoreStop := true) else st.(effects := st.effects + [Unknown])
    ensures ResolveFrom(ts, k, st, acc, rev) == ResolveFrom(ts, k + 1, next, acc + [Kept(Token(Text, ts[k].value))], rev)
  {
    UnknownTagStep(ts[k], st, rev);
    ResolveOnce(ts, k, st, acc, rev, Kept(Token(Text, ts[k].value)), next);
  }

  /** The walk past a stop that is dropped: the one `ignore_stop` was set
      for, or the close of an unknown scope. */
  lemma DroppedStopOnce(ts: seq<Token>, k: nat, st: RState, acc: seq<Slot>, rev: Revision, next: RState)
    requires k < |ts| && Resolvable(ts) && ts[k].kind == EffectStop
    requires rev == AsWritten && st.ignoreStop ==> next == st.(ignoreStop := false)
    requires !(rev == AsWritten && st.ignoreStop) ==>
      st.effects != [] && st.effects[|st.effects| - 1] == Unknown &&
      next == st.(effects := st.effects[..|st.effects| - 1])
    ensures ResolveFrom(ts, k, st, acc, rev) == ResolveFrom(ts, k + 1, next, acc + [Erased], rev)
  {
    ResolveOnce(ts, k, st, acc, rev, Erased, next);
  }

  /** The walk past a text token. */
  lemma TextOnce(ts: seq<Token>, k: nat, st: RState, acc: seq<Slot>, rev: Revision)
    requires k < |ts| && Resolvable(ts) && ts[k].kind == Text
    ensures ResolveFrom(ts, k, st, acc, rev) == ResolveFrom(ts, k + 1, st, acc + [Kept(ts[k])], rev)
  {
    ResolveOnce(ts, k, st, acc, rev, Kept(ts[k]), st);
  }

  /** The tokens of "#zz(#yy(x))". As written, `ignore_stop` remembers only
      one unknown tag: the first stop clears it and the second reaches an
      empty `effects` stack, where the source calls `top()` on it. */
  lemma NestedUnknownTagsAsWritten(ts: seq<Token>)
    requires |ts| == 5 && ts[0] == Token(Effect, "#zz(") && ts[1] == Token(Effect, "#yy(")
    requires ts[2] == Token(Text, "x") && ts[3] == Stop && ts[4] == Stop
    ensures Resolvable(ts) && Resolve(ts, AsWritten) == Failed(EmptyStack, 4)
  {
    // Indices are held in variables so that the walk is unfolded only
    // through the step lemmas.
    var k := 0;
    var raised := Seed.(ignoreStop := true);
    var a1 := [] + [Kept(Token(Text, ts[k].value))];
    var a2 := a1 + [Kept(Token(Text, ts[k + 1].value))];
    var a3 := a2 + [Kept(ts[k + 2])];
    UnknownTagOnce(ts, k, Seed, [], AsWritten, raised);
    UnknownTagOnce(ts, k + 1, raised, a1, AsWritten, raised);
    TextOnce(ts, k + 2, raised, a2, AsWritten);
    DroppedStopOnce(ts, k + 3, raised, a3, AsWritten, Seed);
    assert StepToken(ts[k + 4], Seed, AsWritten) == Fail(EmptyStack);
  }

  /** The tokens of `"#zzz(x)"`: in both revisions the tag stays text, `(`
      included, the text is kept and the stop is dropped, and the walk ends
      with the stacks at their seeds. */
  lemma SingleUnknownTag(ts: seq<Token>, rev: Revision)
    requires |ts| == 3 && ts[0] == Token(Effect, "#zzz(") && ts[1] == Token(Text, "x") && ts[2] == Stop
    ensures Resolvable(ts)
    ensures Resolve(ts, rev) == Resolved([Kept(Token(Text, "#zzz(")), Kept(Token(Text, "x")), Erased], Seed)
  {
    var k := 0;
    var inside := if rev == AsWritten then Seed.(ignoreStop := true) else Seed.(effects := [Unknown]);
    var x, y := Kept(Token(Text, ts[k].value)), Kept(ts[k + 1]);
    assert Name(ts[k].value)[0] == ts[k].value[1] == 'z';
    ZNamesAreUnknown(Name(ts[k].value));
    UnknownNameStep(ts[k], Seed, rev);
    assert Seed.effects + [Unknown] == [Unknown];
    ResolveOnce(ts, k, Seed, [], rev, x, inside);
    TextOnce(ts, k + 1, inside, [] + [x], rev);
    if rev == Corrected {
      assert inside.effects[..|inside.effects| - 1] == [];
    }
    DroppedStopOnce(ts, k + 2, inside, [] + [x] + [y], rev, Seed);
    assert [] + [x] + [y] + [Erased] == [x, y, Erased];
  }

  /** Two stops that end the token list close two unknown scopes: both are
      dropped and the stacks are back at their seeds. */
  lemma UnknownScopesClose(ts: seq<Token>, k: nat, acc: seq<Slot>)
    requires k + 2 == |ts| && Resolvable(ts) && ts[k] == Stop && ts[k + 1] == Stop
    ensures ResolveFrom(ts, k, Seed.(effects := [Unknown, Unknown]), acc, Corrected) ==
      Resolved(acc + [Erased] + [Erased], Seed)
  {
    var one := Seed.(effects := [Unknown]);
    var two := Seed.(effects := [Unknown, Unknown]);
    assert two.effects[..|two.effects| - 1] == one.effects;
    DroppedStopOnce(ts, k, two, acc, Corrected, one);
    assert one.effects[..|one.effects| - 1] == [];
    DroppedStopOnce(ts, k + 1, one, acc + [Erased], Corrected, Seed);
  }

  /** Two unknown two-letter tags and a text token, under the corrected
      walk: two unknown scopes open and all three stay text. */
  lemma UnknownTagsOpen(ts: seq<Token>, k: nat, acc: seq<Slot>)
    requires k + 3 <= |ts| && Resolvable(ts) && ts[k + 2].kind == Text
    requires forall i :: k <= i < k + 2 ==>
      ts[i].kind == Effect && |ts[i].value| == 4 && ts[i].value[0] == '#' && ts[i].value[1] != 'b'
    ensures ResolveFrom(ts, k, Seed, acc, Corrected) ==
      ResolveFrom(ts, k + 3, Seed.(effects := [Unknown, Unknown]),
        acc + [Kept(Token(Text, ts[k].value)), Kept(Token(Text, ts[k + 1].value)), Kept(ts[k + 2])], Corrected)
  {
    var one := Seed.(effects := [Unknown]);
    var two := Seed.(effects := [Unknown, Unknown]);
    var x, y, z := Kept(Token(Text, ts[k].value)), Kept(Token(Text, ts[k + 1].value)), Kept(ts[k + 2]);
    UnknownTagOnce(ts, k, Seed, acc, Corrected, one);
    assert one.(effects := one.effects + [Unknown]) == two;
    UnknownTagOnce(ts, k + 1, one, acc + [x], Corrected, two);
    TextOnce(ts, k + 2, two, acc + [x] + [y], Corrected);
    assert acc + [x] + [y] + [z] == acc + [x, y, z];
  }

  /** Two nested unknown tags around a text token, each closed by a stop,
      under the corrected walk. */
  lemma NestedUnknownTags(ts: seq<Token>)
    requires |ts| == 5 && Resolvable(ts) && ts[2].kind == Text && ts[3] == Stop && ts[4] == Stop
    requires forall i :: 0 <= i < 2 ==>
      ts[i].kind == Effect && |ts[i].value| == 4 && ts[i].value[0] == '#' && ts[i].value[1] != 'b'
    ensures Resolve(ts, Corrected) == Resolved(
      [Kept(Token(Text, ts[0].value)), Kept(Token(Text, ts[1].value)), Kept(ts[2]), Erased, Erased], Seed)
  {
    var x, y, z := Kept(Token(Text, ts[0].value)), Kept(Token(Text, ts[1].value)), Kept(ts[2]);
    var k := 0;
    UnknownTagsOpen(ts, k, []);
    assert [] + [x, y, z] == [x, y, z];
    UnknownScopesClose(ts, k + 3, [x, y, z]);
    assert [x, y, z] + [Erased] + [Erased] == [x, y, z, Erased, Erased];
  }

  /** With one unknown scope per unknown tag, both stops of "#zz(#yy(x))"
      are dropped and the two tags stay as text. */
  lemma NestedUnknownTagsCorrected(ts: seq<Token>)
    requires |ts| == 5 && ts[0] == Token(Effect, "#zz(") && ts[1] == Token(Effect, "#yy(")
    requires ts[2] == Token(Text, "x") && ts[3] == Stop && ts[4] == Stop
    ensures Resolvable(ts)
    ensures Resolve(ts, Corrected) == Resolved(
      [Kept(Token(Text, "#zz(")), Kept(Token(Text, "#yy(")), Kept(Token(Text, "x")), Erased, Erased], Seed)
  {
    NestedUnknownTags(ts);
  }
}
