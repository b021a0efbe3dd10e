/** The token list that `Coltext::tokenize` produces and
    `Coltext::apply_effects` rewrites, and the bookkeeping of open scopes. */
module Tokens {

  /** `Coltext::Token::Type`. */
  datatype TokenType = Text | Effect | EffectStop

  /** `Coltext::Token`: a type and a raw or resolved value. */
  datatype Token = Token(kind: TokenType, value: string)

  /** The one value the tokenizer gives every `effect_stop`. */
  const Stop: Token := Token(EffectStop, ")")

  /** Which reading of the two defective lines the model follows: the code
      as written, or the evidently intended behaviour. */
  datatype Revision = AsWritten | Corrected

  datatype Option<T> = None | Some(value: T)

  /** What a token adds to the number of open scopes. */
  function Weight(t: Token): int {
    if t.kind == Effect then 1 else if t.kind == EffectStop then -1 else 0
  }

  /** Opens minus stops: the number of scopes left open by `ts`. */
  function Depth(ts: seq<Token>): int {
    if ts == [] then 0 else Depth(ts[..|ts| - 1]) + Weight(ts[|ts| - 1])
  }

  /** No prefix of `ts` closes more scopes than it opened. */
  predicate NeverNegative(ts: seq<Token>) {
    if ts == [] then true else NeverNegative(ts[..|ts| - 1]) && Depth(ts) >= 0
  }

  /** Every stop closes an earlier open, and every open is closed. */
  predicate Balanced(ts: seq<Token>) {
    NeverNegative(ts) && Depth(ts) == 0
  }

  /** Pushing one token moves the depth by its weight, and keeps the list
      from ever going negative exactly when the new depth is not negative. */
  lemma Push(ts: seq<Token>, t: Token)
    ensures Depth(ts + [t]) == Depth(ts) + Weight(t)
    ensures NeverNegative(ts + [t]) <==> NeverNegative(ts) && Depth(ts) + Weight(t) >= 0
  {
    assert (ts + [t])[..|ts|] == ts;
  }

  /** Pushing at most one text token and then one more token: the depth
      moves by the weight of the last one. */
  lemma PushShort(ts: seq<Token>, u: seq<Token>)
    requires |u| <= 2 && (|u| == 2 ==> u[0].kind == Text)
    ensures Depth(ts + u) == Depth(ts) + (if u == [] then 0 else Weight(u[|u| - 1]))
    ensures u != [] ==> (NeverNegative(ts + u) <==> NeverNegative(ts) && Depth(ts + u) >= 0)
  {
    if u == [] {
      assert ts + u == ts;
    } else if |u| == 1 {
      Push(ts, u[0]);
      assert ts + u == ts + [u[0]];
    } else {
      Push(ts, u[0]);
      Push(ts + [u[0]], u[1]);
      assert ts + u == ts + [u[0]] + [u[1]];
    }
  }

  lemma NeverNegativeDepth(ts: seq<Token>)
    requires NeverNegative(ts)
    ensures Depth(ts) >= 0
  {
  }

  /** Each prefix of a sequence that never goes negative has a depth of at
      least zero. */
  lemma {:induction false} NeverNegativePrefix(ts: seq<Token>, k: nat)
    requires NeverNegative(ts) && k <= |ts|
    ensures NeverNegative(ts[..k]) && Depth(ts[..k]) >= 0
    decreases |ts|
  {
    if k == |ts| {
      assert ts[..k] == ts;
      NeverNegativeDepth(ts);
    } else {
      assert ts[..|ts| - 1][..k] == ts[..k];
      NeverNegativePrefix(ts[..|ts| - 1], k);
    }
  }
}
