/** The coloured string of a `Coltext`: the input tokenized, the token list
    resolved, and the values of the tokens that remain concatenated in
    order. */
module Coltext {
  import opened Tokens
  import Tokenizer
  import opened Resolver

  /** What a slot contributes to the coloured string: an erased token is no
      longer in the list and contributes nothing. */
  function Piece(slot: Slot): string {
    if slot.Kept? then slot.token.value else []
  }

  /** The concatenation of the values of the kept tokens, in order. */
  function Concat(slots: seq<Slot>): string {
    if slots == [] then [] else Concat(slots[..|slots| - 1]) + Piece(slots[|slots| - 1])
  }

  /** Concatenation distributes over joining two runs of slots. */
  lemma {:induction false} ConcatAppend(a: seq<Slot>, b: seq<Slot>)
    ensures Concat(a + b) == Concat(a) + Concat(b)
    decreases |b|
  {
    if b == [] {
      assert a + b == a;
    } else {
      var c := b[..|b| - 1];
      assert (a + b)[..|a + b| - 1] == a + c;
      assert (a + b)[|a + b| - 1] == b[|b| - 1];
      ConcatAppend(a, c);
    }
  }

  /** Text-only slots concatenate to the texts of their tokens: erasing
      nothing, the renderer adds and drops no character. */
  lemma {:induction false} ConcatOfTexts(slots: seq<Slot>, texts: seq<string>)
    requires |slots| == |texts|
    requires forall i :: 0 <= i < |slots| ==> slots[i] == Kept(Token(Text, texts[i]))
    ensures Concat(slots) == Joined(texts)
    decreases |slots|
  {
    if slots != [] {
      var n := |slots| - 1;
      assert texts[..n][..] == texts[..n];
      ConcatOfTexts(slots[..n], texts[..n]);
      JoinedLast(texts);
    }
  }

  /** A list of strings joined end to end. */
  function Joined(texts: seq<string>): string {
    if texts == [] then [] else texts[0] + Joined(texts[1..])
  }

  lemma {:induction false} JoinedLast(texts: seq<string>)
    requires texts != []
    ensures Joined(texts) == Joined(texts[..|texts| - 1]) + texts[|texts| - 1]
    decreases |texts|
  {
    if |texts| > 1 {
      var t := texts[1..];
      JoinedLast(t);
      assert t[..|t| - 1] == texts[..|texts| - 1][1..];
    }
  }

  /** `for (tkn : tokens) colored_str += tkn.value`. */
  method Render(slots: seq<Slot>) returns (colored: string)
    ensures colored == Concat(slots)
  {
    colored := [];
    var i := 0;
    while i < |slots|
      invariant 0 <= i <= |slots|
      invariant colored == Concat(slots[..i])
    {
      assert slots[..i + 1][..i] == slots[..i];
      colored := colored + Piece(slots[i]);
      i := i + 1;
    }
    assert slots[..i] == slots;
  }

  /** The coloured string the constructor stores for `s`, or `None` where
      `apply_effects` reaches undefined behaviour. */
  function Colored(s: string, rev: Revision): Option<string> {
    var ts := Tokenizer.Tokenized(s, rev);
    Tokenizer.TokenizedWellFormed(s, rev);
    WellFormedResolvable(ts);
    var r := Resolve(ts, rev);
    if r.Resolved? then Some(Concat(r.slots)) else None
  }

  /** The body of `Coltext(const char *str, size_t len)`: tokenize, resolve,
      concatenate. */
  method Colorize(s: string, rev: Revision) returns (colored: Option<string>)
    ensures colored == Colored(s, rev)
  {
    var tokens := Tokenizer.Tokenize(s, rev);
    WellFormedResolvable(tokens);
    var r := ApplyEffects(tokens, rev);
    if r.Failed? {
      return None;
    }
    var text := Render(r.slots);
    return Some(text);
  }

  // ---------------------------------------------------------------------
  // End to end

  /** With the two corrections every input has a coloured string. */
  lemma CorrectedAlwaysColors(s: string)
    ensures Colored(s, Corrected).Some?
  {
    var ts := Tokenizer.Tokenized(s, Corrected);
    Tokenizer.CorrectedBalanced(s);
    Tokenizer.TokenizedWellFormed(s, Corrected);
    WellFormedResolvable(ts);
    CorrectedResolvesBalanced(ts);
  }

  /** Text with no tag, no stop and no escape comes out unchanged. */
  lemma PlainTextUnchanged(s: string, rev: Revision)
    requires Tokenizer.NoMarkup(s)
    ensures Colored(s, rev) == Some(s)
  {
    Tokenizer.PlainTextIdentity(s, rev);
    SingleText(s, rev);
  }

  /** Escaping every `(`, `)` and `#` of a text without `<` makes it come out
      exactly as it was. */
  lemma EscapedTextUnchanged(t: string, rev: Revision)
    requires forall i :: 0 <= i < |t| ==> t[i] != '<'
    ensures Colored(Tokenizer.Escape(t), rev) == Some(t)
  {
    Tokenizer.EscapeRoundTrip(t, rev);
    SingleText(t, rev);
  }

  /** The walk and the render of the token list a plain text scans to. */
  lemma SingleText(s: string, rev: Revision)
    ensures var ts := if s == [] then [] else [Token(Text, s)];
      Resolve(ts, rev) == Resolved(if s == [] then [] else [Kept(Token(Text, s))], Seed) &&
      Concat(Resolve(ts, rev).slots) == s
  {
    if s != [] {
      var ts := [Token(Text, s)];
      assert Resolvable(ts);
      assert ResolveFrom(ts, 1, Seed, [Kept(ts[0])], rev) == Resolved([Kept(ts[0])], Seed);
      assert [] + [Kept(ts[0])] == [Kept(ts[0])];
      assert [Kept(Token(Text, s))][..0] == [];
    }
  }

  /** An unknown tag stays in the output as written, `(` included, while
      its closing parenthesis is dropped: `"#zzz(x)"` comes out as `#zzz(x`
      in both revisions. */
  lemma UnknownTagKeptAsText(s: string, rev: Revision)
    requires s == "#zzz(x)"
    ensures Colored(s, rev) == Some("#zzz(x")
  {
    var ts := Tokenizer.Tokenized(s, rev);
    Tokenizer.UnknownTagTokens(s, rev);
    SingleUnknownTag(ts, rev);
    RenderUnknownTag([Kept(Token(Text, "#zzz(")), Kept(Token(Text, "x")), Erased]);
  }

  lemma RenderUnknownTag(slots: seq<Slot>)
    requires slots == [Kept(Token(Text, "#zzz(")), Kept(Token(Text, "x")), Erased]
    ensures Concat(slots) == "#zzz(x"
  {
    var texts := ["#zzz(", "x"];
    ConcatOfTexts(slots[..2], texts);
    assert slots == slots[..2] + [Erased];
    ConcatAppend(slots[..2], [Erased]);
    assert Concat([Erased]) == [];
    assert Joined(texts) == "#zzz(x";
  }

  /** As written, an input whose counter never goes negative and whose tags
      all have known names always gets a coloured string, the same as with
      both corrections. */
  lemma NonNegativeKnownNamesColor(s: string)
    requires Tokenizer.StaysNonNegative(s, Tokenizer.Start)
    requires AllNamesKnown(Tokenizer.Tokenized(s, AsWritten))
    ensures Colored(s, AsWritten).Some?
    ensures Colored(s, AsWritten) == Colored(s, Corrected)
  {
    var ts := Tokenizer.Tokenized(s, AsWritten);
    Tokenizer.NonNegativeBalanced(s);
    Tokenizer.TokenizedWellFormed(s, AsWritten);
    WellFormedResolvable(ts);
    KnownNamesResolveIffNeverNegative(ts);
    AgreesWithoutUnknownTags(ts);
  }

  /** `"#zz(#yy(x))"` as written: the second stop calls `top()` on an empty
      `effects` stack, so there is no coloured string to speak of. */
  lemma NestedUnknownTagsUndefined(s: string)
    requires s == "#zz(#yy(x))"
    ensures Colored(s, AsWritten) == None
  {
    var ts := Tokenizer.Tokenized(s, AsWritten);
    Tokenizer.NestedUnknownTagsTokens(s, AsWritten);
    NestedUnknownTagsAsWritten(ts);
  }

  /** With one scope per unknown tag, `"#zz(#yy(x))"` keeps its two tags as
      text, each with the `(` the tokenizer appended, and drops both closing
      parentheses. */
  lemma NestedUnknownTagsKeptAsText(s: string)
    requires s == "#zz(#yy(x))"
    ensures Colored(s, Corrected) == Some("#zz(#yy(x")
  {
    var ts := Tokenizer.Tokenized(s, Corrected);
    Tokenizer.NestedUnknownTagsTokens(s, Corrected);
    NestedUnknownTagsCorrected(ts);
    RenderNested([Kept(Token(Text, "#zz(")), Kept(Token(Text, "#yy(")), Kept(Token(Text, "x")), Erased, Erased]);
  }

  lemma RenderNested(slots: seq<Slot>)
    requires slots == [Kept(Token(Text, "#zz(")), Kept(Token(Text, "#yy(")), Kept(Token(Text, "x")), Erased, Erased]
    ensures Concat(slots) == "#zz(#yy(x"
  {
    var texts := ["#zz(", "#yy(", "x"];
    ConcatOfTexts(slots[..3], texts);
    assert slots == slots[..3] + [Erased, Erased];
    ConcatAppend(slots[..3], [Erased, Erased]);
    assert Concat([Erased, Erased]) == [];
    assert Joined(texts) == "#zz(#yy(x";
  }

  /** `"#y a)b c"` as written: the space after `b` closes the next-word scope
      a second time, and the extra stop reaches an empty `effects` stack. */
  lemma NextWordCloseUndefined(s: string)
    requires s == "#y a)b c"
    ensures Colored(s, AsWritten) == None
  {
    var ts := Tokenizer.Tokenized(s, AsWritten);
    Tokenizer.NextWordCloseBelowZero(s);
    Tokenizer.TokenizedWellFormed(s, AsWritten);
    WellFormedResolvable(ts);
    OnlyFirstIsTag(ts);
    YellowTagKnown(ts);
    if NeverNegative(ts) {
      NeverNegativeDepth(ts);
    }
    KnownNamesResolveIffNeverNegative(ts);
  }

  /** A token list whose only tag is a known yellow one at its head. */
  lemma YellowTagKnown(ts: seq<Token>)
    requires |ts| > 0 && ts[0] == Token(Effect, "#y ")
    requires forall i :: 1 <= i < |ts| ==> ts[i].kind != Effect
    ensures AllNamesKnown(ts)
  {
    forall i | 0 <= i < |ts| && ts[i].kind == Effect
      ensures |ts[i].value| >= 2 && Name(ts[i].value) in Ansi.NameToEffect
    {
      assert i == 0;
      YellowTagName(ts[i]);
    }
  }

  lemma OnlyFirstIsTag(ts: seq<Token>)
    requires ts == [Token(Effect, "#y "), Token(Text, "a"), Stop, Token(Text, "b"), Stop, Token(Text, " c")]
    ensures |ts| > 0 && ts[0] == Token(Effect, "#y ")
    ensures forall i :: 1 <= i < |ts| ==> ts[i].kind != Effect
  {
  }

  lemma YellowTagName(t: Token)
    requires t == Token(Effect, "#y ")
    ensures |t.value| >= 2 && Name(t.value) in Ansi.NameToEffect
  {
    var n := Name(t.value);
    assert n == "y" by {
      assert t.value[1..|t.value| - 1] == "y";
    }
    Ansi.YellowIsName(n);
  }
}
