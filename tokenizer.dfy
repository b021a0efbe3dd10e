/** `Coltext::tokenize`: one left-to-right scan of the marked-up text that
    emits `text`, `effect` and `effect_stop` tokens. The scan is specified
    step by step by `Step`/`Scan`/`Tokenized`; the method `Tokenize` is the
    loop of the source, proved equal to that specification. */
module Tokenizer {
  import opened Tokens

  /** The variables the source's loop updates: the token list, the pending
      `buffer`, the open-scope counter `num_wait_closing` and the
      `wait_next_word` flag. */
  datatype ScanState = ScanState(tokens: seq<Token>, buffer: string, numWaitClosing: int, waitNextWord: bool)

  const Start: ScanState := ScanState([], "", 0, false)

  /** The characters a backslash escapes: `\(`, `\)` and `\#` (not `\<`). */
  predicate IsEscapable(c: char) {
    c == '(' || c == ')' || c == '#'
  }

  predicate IsTagStart(c: char) {
    c == '#' || c == '<'
  }

  /** A tag's name runs up to the first `(` or space. */
  predicate EndsTag(c: char) {
    c == '(' || c == ' '
  }

  /** The position of the first `(` or space at or after `k`, or the end of
      `r`: where the source's do-while tag capture stops. */
  function TagEnd(r: string, k: nat): (j: nat)
    requires 1 <= k <= |r|
    ensures k <= j <= |r|
    ensures j < |r| ==> EndsTag(r[j])
    ensures forall m :: k <= m < j ==> !EndsTag(r[m])
    decreases |r| - k
  {
    if k == |r| || EndsTag(r[k]) then k else TagEnd(r, k + 1)
  }

  /** The effect token of the tag at the head of `r`: the tag and then one
      appended `(`, or a space when the tag ended at a space. */
  function TagToken(r: string): Token
    requires r != [] && IsTagStart(r[0])
  {
    var j := TagEnd(r, 1);
    Token(Effect, r[..j] + (if j < |r| && r[j] == ' ' then " " else "("))
  }

  /** What one pass of the loop body does: how many characters it consumes,
      the tokens it pushes, and the new buffer, counter and flag. */
  datatype Move = Move(consumed: nat, emitted: seq<Token>, buffer: string, numWaitClosing: int, waitNextWord: bool)

  /** The text token a flush pushes: none for an empty buffer. */
  function FlushTokens(buffer: string): seq<Token> {
    if buffer == [] then [] else [Token(Text, buffer)]
  }

  /** One pass of the loop body on the unread rest `r` of the input. The
      branches are those of the source, in its order. */
  function Step(r: string, st: ScanState, rev: Revision): (m: Move)
    requires r != []
    ensures 1 <= m.consumed <= |r|
    ensures |m.emitted| <= 2 && (|m.emitted| == 2 ==> m.emitted[0].kind == Text)
    ensures m.emitted == [] ==> m.numWaitClosing == st.numWaitClosing
    ensures m.emitted != [] ==> m.numWaitClosing == st.numWaitClosing + Weight(m.emitted[|m.emitted| - 1])
    ensures rev == Corrected && m.numWaitClosing < st.numWaitClosing ==> st.numWaitClosing > 0
  {
    var c := r[0];
    if c == '\\' && |r| > 1 && IsEscapable(r[1]) then
      // an escaped parenthesis or hash: only the second character is kept
      Move(2, [], st.buffer + [r[1]], st.numWaitClosing, st.waitNextWord)
    else if IsTagStart(c) then
      // flush, capture the tag, count one more scope
      var j := TagEnd(r, 1);
      Move(if j < |r| then j + 1 else j, FlushTokens(st.buffer) + [TagToken(r)], "",
           st.numWaitClosing + 1, st.waitNextWord || (j < |r| && r[j] == ' '))
    else if st.numWaitClosing > 0 && c == ')' then
      Move(1, FlushTokens(st.buffer) + [Stop], "", st.numWaitClosing - 1, st.waitNextWord)
    else if st.waitNextWord && c == ' ' && (rev == AsWritten || st.numWaitClosing > 0) then
      // the next word ends: the buffer is pushed even when empty, and the
      // space itself starts the new buffer
      Move(1, [Token(Text, st.buffer), Stop], " ", st.numWaitClosing - 1, false)
    else
      Move(1, [], st.buffer + [c], st.numWaitClosing, st.waitNextWord)
  }

  /** The state after a move. */
  function Apply(st: ScanState, m: Move): ScanState {
    ScanState(st.tokens + m.emitted, m.buffer, m.numWaitClosing, m.waitNextWord)
  }

  /** The loop run to the end of the input. */
  function Scan(r: string, st: ScanState, rev: Revision): ScanState
    decreases |r|
  {
    if r == [] then st
    else
      var m := Step(r, st, rev);
      Scan(r[m.consumed..], Apply(st, m), rev)
  }

  /** `n` synthetic stops (none when `n` is not positive). */
  function Stops(n: int): seq<Token>
    decreases n
  {
    if n <= 0 then [] else Stops(n - 1) + [Stop]
  }

  /** After the loop: the last flush, then one stop per scope still open. */
  function Finish(st: ScanState): seq<Token> {
    st.tokens + FlushTokens(st.buffer) + Stops(st.numWaitClosing)
  }

  /** The token list `tokenize` returns for `s`. */
  function Tokenized(s: string, rev: Revision): seq<Token> {
    Finish(Scan(s, Start, rev))
  }

  // ---------------------------------------------------------------------
  // The loop

  lemma TagEndIs(r: string, j: nat)
    requires 1 <= j <= |r|
    requires j < |r| ==> EndsTag(r[j])
    requires forall m :: 1 <= m < j ==> !EndsTag(r[m])
    ensures TagEnd(r, 1) == j
  {
  }

  // One lemma per branch of `Step`, so that each pass of the loop is
  // matched against the one branch it takes.

  lemma EscapeStep(r: string, st: ScanState, rev: Revision)
    requires |r| > 1 && r[0] == '\\' && IsEscapable(r[1])
    ensures Step(r, st, rev) == Move(2, [], st.buffer + [r[1]], st.numWaitClosing, st.waitNextWord)
  {
  }

  lemma TagStep(r: string, st: ScanState, rev: Revision, j: nat)
    requires r != [] && IsTagStart(r[0]) && 1 <= j <= |r| && TagEnd(r, 1) == j
    ensures Step(r, st, rev) == Move(if j < |r| then j + 1 else j, FlushTokens(st.buffer) + [TagToken(r)], "",
                                     st.numWaitClosing + 1, st.waitNextWord || (j < |r| && r[j] == ' '))
  {
  }

  lemma CloseStep(r: string, st: ScanState, rev: Revision)
    requires r != [] && r[0] == ')' && st.numWaitClosing > 0
    ensures Step(r, st, rev) == Move(1, FlushTokens(st.buffer) + [Stop], "", st.numWaitClosing - 1, st.waitNextWord)
  {
  }

  lemma WordCloseStep(r: string, st: ScanState, rev: Revision)
    requires r != [] && r[0] == ' ' && st.waitNextWord && (rev == AsWritten || st.numWaitClosing > 0)
    ensures Step(r, st, rev) == Move(1, [Token(Text, st.buffer), Stop], " ", st.numWaitClosing - 1, false)
  {
  }

  lemma CharStep(r: string, st: ScanState, rev: Revision)
    requires r != [] && !(|r| > 1 && r[0] == '\\' && IsEscapable(r[1])) && !IsTagStart(r[0])
    requires !(r[0] == ')' && st.numWaitClosing > 0)
    requires !(r[0] == ' ' && st.waitNextWord && (rev == AsWritten || st.numWaitClosing > 0))
    ensures Step(r, st, rev) == Move(1, [], st.buffer + [r[0]], st.numWaitClosing, st.waitNextWord)
  {
  }

  /** The tag capture inside the loop: from the `#` or `<` at `start`, take
      characters up to the first `(` or space or the end of `s`. */
  method CaptureTag(s: string, start: nat) returns (tag: string, i: nat)
    requires start < |s|
    ensures start < i <= |s| && tag == s[start..i]
    ensures i - start == TagEnd(s[start..], 1)
  {
    tag := [s[start]];
    i := start + 1;
    while i < |s| && s[i] != '(' && s[i] != ' '
      invariant start < i <= |s|
      invariant tag == s[start..i]
      invariant forall k :: start < k < i ==> !EndsTag(s[k])
    {
      tag := tag + [s[i]];
      i := i + 1;
    }
    TagEndIs(s[start..], i - start);
  }

  /** The end of `tokenize` after its loop: flush the buffer, then push one
      stop per scope the counter says is still open. */
  method FinishTokens(tokens: seq<Token>, buffer: string, numWaitClosing: int) returns (result: seq<Token>)
    ensures result == tokens + FlushTokens(buffer) + Stops(numWaitClosing)
  {
    result := tokens;
    if buffer != [] {
      result := result + [Token(Text, buffer)];
    }
    ghost var flushed := result;
    var n := numWaitClosing;
    while n > 0
      invariant numWaitClosing > 0 ==> 0 <= n <= numWaitClosing
      invariant numWaitClosing <= 0 ==> n == numWaitClosing
      invariant result == flushed + Stops(numWaitClosing - n)
    {
      result := result + [Stop];
      n := n - 1;
    }
  }

  /** The tag branch of the loop body: flush, capture the tag, push the
      effect token and count one more open scope. */
  method AdvanceTag(s: string, i: nat, st: ScanState, rev: Revision) returns (next: ScanState, j: nat)
    requires i < |s| && IsTagStart(s[i]) && !(s[i] == '\\' && i + 1 < |s| && IsEscapable(s[i + 1]))
    ensures j == i + Step(s[i..], st, rev).consumed
    ensures next == Apply(st, Step(s[i..], st, rev))
  {
    ghost var r := s[i..];
    var tokens, buffer, numWaitClosing, waitNextWord := st.tokens, st.buffer, st.numWaitClosing, st.waitNextWord;
    j := i;
    if buffer != [] {
      tokens := tokens + [Token(Text, buffer)];
      buffer := [];
    }
    assert tokens == st.tokens + FlushTokens(st.buffer);
    buffer, j := CaptureTag(s, j);
    TagStep(r, st, rev, j - i);
    assert r[..j - i] == buffer;
    if j < |s| && s[j] == ' ' {
      buffer := buffer + [' '];
      waitNextWord := true;
    } else {
      buffer := buffer + ['('];
    }
    assert Token(Effect, buffer) == TagToken(r);
    tokens := tokens + [Token(Effect, buffer)];
    buffer := [];
    numWaitClosing := numWaitClosing + 1;
    // the `++i` of the loop header; past the end it only ends the loop
    if j < |s| {
      j := j + 1;
    }
    assert ScanState(tokens, buffer, numWaitClosing, waitNextWord) == Apply(st, Step(r, st, rev));
    next := ScanState(tokens, buffer, numWaitClosing, waitNextWord);
  }

  /** One pass of the body of `tokenize`'s loop, on the character at `i`
      with the loop's variables in `st`; returns the updated variables and
      the position the loop header's `++i` moves to. */
  method Advance(s: string, i: nat, st: ScanState, rev: Revision) returns (next: ScanState, j: nat)
    requires i < |s|
    ensures j == i + Step(s[i..], st, rev).consumed
    ensures next == Apply(st, Step(s[i..], st, rev))
  {
    ghost var r := s[i..];
    var tokens, buffer, numWaitClosing, waitNextWord := st.tokens, st.buffer, st.numWaitClosing, st.waitNextWord;
    j := i;
    var c := s[j];
    if c == '\\' && j + 1 < |s| && IsEscapable(s[j + 1]) {
      EscapeStep(r, st, rev);
      buffer := buffer + [s[j + 1]];
      j := j + 2;
      assert ScanState(tokens, buffer, numWaitClosing, waitNextWord) == Apply(st, Step(r, st, rev));
    } else if c == '#' || c == '<' {
      next, j := AdvanceTag(s, i, st, rev);
      return;
    } else if numWaitClosing > 0 && c == ')' {
      CloseStep(r, st, rev);
      numWaitClosing := numWaitClosing - 1;
      if buffer != [] {
        tokens := tokens + [Token(Text, buffer)];
        buffer := [];
      }
      tokens := tokens + [Stop];
      j := j + 1;
      assert ScanState(tokens, buffer, numWaitClosing, waitNextWord) == Apply(st, Step(r, st, rev));
    } else if waitNextWord && c == ' ' && (rev == AsWritten || numWaitClosing > 0) {
      WordCloseStep(r, st, rev);
      numWaitClosing := numWaitClosing - 1;
      waitNextWord := false;
      tokens := tokens + [Token(Text, buffer)];
      buffer := [];
      tokens := tokens + [Stop];
      buffer := buffer + [' '];
      j := j + 1;
      assert ScanState(tokens, buffer, numWaitClosing, waitNextWord) == Apply(st, Step(r, st, rev));
    } else {
      CharStep(r, st, rev);
      buffer := buffer + [c];
      j := j + 1;
      assert ScanState(tokens, buffer, numWaitClosing, waitNextWord) == Apply(st, Step(r, st, rev));
    }
    next := ScanState(tokens, buffer, numWaitClosing, waitNextWord);
  }

  /** `Coltext::tokenize`: the loop of the source over the characters of
      `s`, then the last flush and the stops for the scopes still open. */
  method Tokenize(s: string, rev: Revision) returns (tokens: seq<Token>)
    ensures tokens == Tokenized(s, rev)
    ensures AllWellFormed(tokens)
    ensures EmptyTextOnlyBeforeStop(tokens)
    ensures rev == Corrected ==> Balanced(tokens)
  {
    var st := Start;
    var i := 0;
    while i < |s|
      invariant 0 <= i <= |s|
      invariant Scan(s[i..], st, rev) == Scan(s, Start, rev)
    {
      ghost var r := s[i..];
      ghost var m := Step(r, st, rev);
      st, i := Advance(s, i, st, rev);
      assert r[m.consumed..] == s[i..];
    }
    tokens := FinishTokens(st.tokens, st.buffer, st.numWaitClosing);
    TokenizedWellFormed(s, rev);
    TokenizedEmptyText(s, rev);
    if rev == Corrected {
      CorrectedBalanced(s);
    }
  }

  // ---------------------------------------------------------------------
  // Shape of the tokens

  /** An `effect` token is the tag (from its `#` or `<` up to, not including,
      the first `(` or space) followed by exactly one appended `(` or space;
      so its value has at least two characters, which is what the
      resolver's `pop_back` and `at(0)` need. A stop is always `)`. */
  predicate WellFormed(t: Token) {
    (t.kind == Effect ==>
      |t.value| >= 2 && IsTagStart(t.value[0]) && EndsTag(t.value[|t.value| - 1]) &&
      forall m :: 1 <= m < |t.value| - 1 ==> !EndsTag(t.value[m])) &&
    (t.kind == EffectStop ==> t.value == ")")
  }

  predicate AllWellFormed(ts: seq<Token>) {
    forall i :: 0 <= i < |ts| ==> WellFormed(ts[i])
  }

  /** Flushes at a tag, at `)` and at the end skip an empty buffer; only the
      next-word close pushes its buffer unconditionally, and it always pushes
      a stop right after it. */
  predicate EmptyTextOnlyBeforeStop(ts: seq<Token>) {
    forall i :: 0 <= i < |ts| && ts[i] == Token(Text, "") ==> i + 1 < |ts| && ts[i + 1] == Stop
  }

  /** The tokens one step pushes are well formed, and an empty text among
      them is followed by a stop. */
  lemma StepShape(r: string, st: ScanState, rev: Revision)
    requires r != []
    ensures AllWellFormed(Step(r, st, rev).emitted)
    ensures EmptyTextOnlyBeforeStop(Step(r, st, rev).emitted)
  {
    var e := Step(r, st, rev).emitted;
    if e != [] {
      var t := e[|e| - 1];
      if t.kind == Effect {
        TagTokenWellFormed(r);
      }
      assert WellFormed(t) && t != Token(Text, "");
      assert |e| == 2 ==> e[1] == Stop || e[0] != Token(Text, "");
    }
  }

  lemma TagTokenWellFormed(r: string)
    requires r != [] && IsTagStart(r[0])
    ensures WellFormed(TagToken(r))
  {
    var j := TagEnd(r, 1);
    assert TagToken(r).value[..j] == r[..j];
  }

  lemma EmptyTextConcat(a: seq<Token>, b: seq<Token>)
    requires EmptyTextOnlyBeforeStop(a) && EmptyTextOnlyBeforeStop(b)
    ensures EmptyTextOnlyBeforeStop(a + b)
  {
    forall i | 0 <= i < |a + b| && (a + b)[i] == Token(Text, "")
      ensures i + 1 < |a + b| && (a + b)[i + 1] == Stop
    {
      if i < |a| {
        assert a[i] == Token(Text, "");
      } else {
        assert b[i - |a|] == Token(Text, "");
      }
    }
  }

  lemma {:induction false} ScanShape(r: string, st: ScanState, rev: Revision)
    requires AllWellFormed(st.tokens) && EmptyTextOnlyBeforeStop(st.tokens)
    ensures AllWellFormed(Scan(r, st, rev).tokens) && EmptyTextOnlyBeforeStop(Scan(r, st, rev).tokens)
    decreases |r|
  {
    if r != [] {
      var m := Step(r, st, rev);
      StepShape(r, st, rev);
      EmptyTextConcat(st.tokens, m.emitted);
      ScanShape(r[m.consumed..], Apply(st, m), rev);
    }
  }

  lemma {:induction false} StopsShape(n: int)
    ensures |Stops(n)| == if n <= 0 then 0 else n
    ensures forall i :: 0 <= i < |Stops(n)| ==> Stops(n)[i] == Stop
    decreases n
  {
    if n > 0 {
      StopsShape(n - 1);
    }
  }

  /** Every token `tokenize` emits has the shape described by `WellFormed`. */
  lemma TokenizedWellFormed(s: string, rev: Revision)
    ensures AllWellFormed(Tokenized(s, rev))
  {
    var st := Scan(s, Start, rev);
    ScanShape(s, Start, rev);
    StopsShape(st.numWaitClosing);
  }

  /** The tokenizer never emits an empty text token except directly before
      the stop of a next-word scope. */
  lemma TokenizedEmptyText(s: string, rev: Revision)
    ensures EmptyTextOnlyBeforeStop(Tokenized(s, rev))
  {
    var st := Scan(s, Start, rev);
    ScanShape(s, Start, rev);
    StopsShape(st.numWaitClosing);
    EmptyTextConcat(st.tokens, FlushTokens(st.buffer));
    EmptyTextConcat(st.tokens + FlushTokens(st.buffer), Stops(st.numWaitClosing));
  }

  /** Only the next-word close pushes an empty text token: the flushes at a
      tag and at a `)` skip an empty buffer, and a tag token always holds
      the tag. */
  lemma OnlyWordCloseEmitsEmptyText(r: string, st: ScanState, rev: Revision)
    requires r != []
    ensures Token(Text, "") in Step(r, st, rev).emitted ==>
      r[0] == ' ' && st.waitNextWord && st.buffer == [] && Step(r, st, rev).emitted == [Token(Text, ""), Stop]
  {
    if IsTagStart(r[0]) {
      TagTokenWellFormed(r);
    }
  }

  /** ... and the flush after the loop skips an empty buffer too. */
  lemma FinalFlushNotEmpty(buffer: string)
    ensures Token(Text, "") !in FlushTokens(buffer)
  {
  }

  // ---------------------------------------------------------------------
  // The open-scope counter

  /** One step changes the counter by exactly the depth of what it pushes;
      in the corrected scan it never pushes a stop at depth zero. */
  lemma StepDepth(ts: seq<Token>, r: string, st: ScanState, rev: Revision)
    requires r != []
    ensures Depth(ts + Step(r, st, rev).emitted) == Depth(ts) + Step(r, st, rev).numWaitClosing - st.numWaitClosing
    ensures rev == Corrected && NeverNegative(ts) && Depth(ts) == st.numWaitClosing ==>
      NeverNegative(ts + Step(r, st, rev).emitted)
  {
    var m := Step(r, st, rev);
    PushShort(ts, m.emitted);
    if m.emitted == [] {
      assert ts + m.emitted == ts;
    }
    if NeverNegative(ts) {
      NeverNegativeDepth(ts);
    }
  }

  lemma {:induction false} ScanTracksDepth(r: string, st: ScanState, rev: Revision)
    requires Depth(st.tokens) == st.numWaitClosing
    ensures Depth(Scan(r, st, rev).tokens) == Scan(r, st, rev).numWaitClosing
    decreases |r|
  {
    if r != [] {
      var m := Step(r, st, rev);
      StepDepth(st.tokens, r, st, rev);
      ScanTracksDepth(r[m.consumed..], Apply(st, m), rev);
    }
  }

  lemma FlushDepth(ts: seq<Token>, buffer: string)
    ensures Depth(ts + FlushTokens(buffer)) == Depth(ts)
    ensures NeverNegative(ts + FlushTokens(buffer)) == NeverNegative(ts)
  {
    if buffer == [] {
      assert ts + FlushTokens(buffer) == ts;
    } else {
      Push(ts, Token(Text, buffer));
    }
  }

  lemma {:induction false} StopsDepth(ts: seq<Token>, n: int)
    ensures Depth(ts + Stops(n)) == Depth(ts) - (if n <= 0 then 0 else n)
    ensures NeverNegative(ts) && n <= Depth(ts) ==> NeverNegative(ts + Stops(n))
    decreases n
  {
    if n > 0 {
      StopsDepth(ts, n - 1);
      assert ts + Stops(n) == (ts + Stops(n - 1)) + [Stop];
      Push(ts + Stops(n - 1), Stop);
    } else {
      assert ts + Stops(n) == ts;
    }
  }

  /** `num_wait_closing` is the number of scopes the emitted tokens leave
      open, so the final loop closes all of them when the counter is not
      negative; a negative counter leaves more stops than opens. */
  lemma CounterTracksDepth(s: string, rev: Revision)
    ensures var n := Scan(s, Start, rev).numWaitClosing;
      Depth(Tokenized(s, rev)) == if n < 0 then n else 0
  {
    var st := Scan(s, Start, rev);
    ScanTracksDepth(s, Start, rev);
    FlushDepth(st.tokens, st.buffer);
    StopsDepth(st.tokens + FlushTokens(st.buffer), st.numWaitClosing);
  }

  lemma {:induction false} CorrectedScanNeverNegative(r: string, st: ScanState)
    requires Depth(st.tokens) == st.numWaitClosing && NeverNegative(st.tokens)
    ensures var e := Scan(r, st, Corrected);
      Depth(e.tokens) == e.numWaitClosing && NeverNegative(e.tokens)
    decreases |r|
  {
    if r != [] {
      var m := Step(r, st, Corrected);
      StepDepth(st.tokens, r, st, Corrected);
      CorrectedScanNeverNegative(r[m.consumed..], Apply(st, m));
    }
  }

  /** With the next-word close guarded like the `)` close, the counter never
      goes negative, and every stop closes an earlier open and every open is
      closed exactly once. */
  lemma CorrectedBalanced(s: string)
    ensures Balanced(Tokenized(s, Corrected))
  {
    var st := Scan(s, Start, Corrected);
    CorrectedScanNeverNegative(s, Start);
    NeverNegativeDepth(st.tokens);
    FlushDepth(st.tokens, st.buffer);
    StopsDepth(st.tokens + FlushTokens(st.buffer), st.numWaitClosing);
  }

  /** From `st` on, the scan as written never takes its counter below zero:
      no next-word close fires once its scope is already closed. */
  predicate StaysNonNegative(r: string, st: ScanState)
    decreases |r|
  {
    st.numWaitClosing >= 0 &&
    (r != [] ==> var m := Step(r, st, AsWritten); StaysNonNegative(r[m.consumed..], Apply(st, m)))
  }

  /** A pass that leaves the counter non-negative is the same pass in both
      revisions: the guard only matters when the counter would drop below
      zero. */
  lemma SameStep(r: string, st: ScanState)
    requires r != [] && st.numWaitClosing >= 0 && Step(r, st, AsWritten).numWaitClosing >= 0
    ensures Step(r, st, AsWritten) == Step(r, st, Corrected)
  {
  }

  lemma {:induction false} ScanAgrees(r: string, st: ScanState)
    requires StaysNonNegative(r, st)
    ensures Scan(r, st, AsWritten) == Scan(r, st, Corrected)
    decreases |r|
  {
    if r != [] {
      var m := Step(r, st, AsWritten);
      SameStep(r, st);
      ScanAgrees(r[m.consumed..], Apply(st, m));
    }
  }

  /** As written, an input whose counter never goes negative tokenizes as
      with the guard, so its opens and stops balance. */
  lemma NonNegativeBalanced(s: string)
    requires StaysNonNegative(s, Start)
    ensures Tokenized(s, AsWritten) == Tokenized(s, Corrected)
    ensures Balanced(Tokenized(s, AsWritten))
  {
    ScanAgrees(s, Start);
    CorrectedBalanced(s);
  }

  // ---------------------------------------------------------------------
  // Plain text and escapes

  /** No tag start and no escape sequence anywhere in `s`. */
  predicate NoMarkup(s: string) {
    forall i :: 0 <= i < |s| ==> !IsTagStart(s[i]) && !(s[i] == '\\' && i + 1 < |s| && IsEscapable(s[i + 1]))
  }

  lemma {:induction false} ScanPlain(r: string, st: ScanState, rev: Revision)
    requires NoMarkup(r) && st.numWaitClosing == 0 && !st.waitNextWord
    ensures Scan(r, st, rev) == ScanState(st.tokens, st.buffer + r, 0, false)
    decreases |r|
  {
    if r == [] {
      assert st.buffer + r == st.buffer;
    } else {
      assert !IsTagStart(r[0]);
      CharStep(r, st, rev);
      assert NoMarkup(r[1..]) by {
        forall i | 0 <= i < |r[1..]|
          ensures !IsTagStart(r[1..][i]) && !(r[1..][i] == '\\' && i + 1 < |r[1..]| && IsEscapable(r[1..][i + 1]))
        {
          assert r[1..][i] == r[i + 1];
        }
      }
      ScanPlain(r[1..], Apply(st, Step(r, st, rev)), rev);
      assert (st.buffer + [r[0]]) + r[1..] == st.buffer + r;
    }
  }

  /** Text with no tag and no escape comes back as one text token, or as no
      token at all when it is empty. */
  lemma PlainTextIdentity(s: string, rev: Revision)
    requires NoMarkup(s)
    ensures Tokenized(s, rev) == if s == [] then [] else [Token(Text, s)]
  {
    ScanPlain(s, Start, rev);
    var st := Scan(s, Start, rev);
    assert st.tokens == [] && st.buffer == s && st.numWaitClosing == 0;
    assert Stops(0) == [];
    assert Tokenized(s, rev) == [] + FlushTokens(s) + [];
  }

  /** Escapes every `(`, `)` and `#` of `t` with a backslash. */
  function Escape(t: string): (e: string)
    ensures |e| >= |t|
    ensures t != [] ==> e != [] && !IsEscapable(e[0])
    ensures t != [] && IsEscapable(t[0]) ==> |e| > 1 && e[0] == '\\' && e[1] == t[0]
  {
    if t == [] then []
    else (if IsEscapable(t[0]) then ['\\', t[0]] else [t[0]]) + Escape(t[1..])
  }

  lemma {:induction false} ScanEscaped(t: string, st: ScanState, rev: Revision)
    requires forall i :: 0 <= i < |t| ==> t[i] != '<'
    requires st.numWaitClosing == 0 && !st.waitNextWord
    ensures Scan(Escape(t), st, rev) == ScanState(st.tokens, st.buffer + t, 0, false)
    decreases |t|
  {
    var r := Escape(t);
    if t == [] {
      assert st.buffer + t == st.buffer;
    } else {
      var n := if IsEscapable(t[0]) then 2 else 1;
      assert r[n..] == Escape(t[1..]);
      if IsEscapable(t[0]) {
        EscapeStep(r, st, rev);
      } else {
        assert r[0] == t[0];
        if |r| > 1 {
          assert r[1] == Escape(t[1..])[0];
        }
        CharStep(r, st, rev);
      }
      ScanEscaped(t[1..], Apply(st, Step(r, st, rev)), rev);
      assert (st.buffer + [t[0]]) + t[1..] == st.buffer + t;
    }
  }

  /** Escaping a text that holds no `<` and tokenizing it gives the text
      back, each `\(`, `\)` and `\#` having kept only its second character. */
  lemma EscapeRoundTrip(t: string, rev: Revision)
    requires forall i :: 0 <= i < |t| ==> t[i] != '<'
    ensures Tokenized(Escape(t), rev) == if t == [] then [] else [Token(Text, t)]
  {
    ScanEscaped(t, Start, rev);
    assert Start.buffer + t == t;
  }

  // ---------------------------------------------------------------------
  // The next-word close below zero

  /** One unfolding of `Scan`. */
  lemma ScanOnce(r: string, st: ScanState, rev: Revision)
    requires r != []
    ensures Scan(r, st, rev) == Scan(r[Step(r, st, rev).consumed..], Apply(st, Step(r, st, rev)), rev)
  {
  }

  /** `Scan` past an ordinary character. */
  lemma ScanChar(r: string, st: ScanState, rev: Revision)
    requires r != [] && !(|r| > 1 && r[0] == '\\' && IsEscapable(r[1])) && !IsTagStart(r[0])
    requires !(r[0] == ')' && st.numWaitClosing > 0)
    requires !(r[0] == ' ' && st.waitNextWord && (rev == AsWritten || st.numWaitClosing > 0))
    ensures Scan(r, st, rev) == Scan(r[1..], ScanState(st.tokens, st.buffer + [r[0]], st.numWaitClosing, st.waitNextWord), rev)
  {
    CharStep(r, st, rev);
    assert st.tokens + [] == st.tokens;
    ScanOnce(r, st, rev);
  }

  /** The scan of `"#y a)b c"` past its tag: one scope open, waiting for
      the end of the next word. */
  lemma ScanPastTag(s: string, rev: Revision)
    requires s == "#y a)b c"
    ensures Scan(s, Start, rev) == Scan(s[3..], ScanState([Token(Effect, "#y ")], "", 1, true), rev)
  {
    TagEndIs(s, 2);
    TagStep(s, Start, rev, 2);
    assert TagToken(s) == Token(Effect, "#y ") by {
      assert s[..2] + " " == "#y ";
    }
    assert Apply(Start, Step(s, Start, rev)) == ScanState([Token(Effect, "#y ")], "", 1, true) by {
      assert Step(s, Start, rev).emitted == [Token(Effect, "#y ")];
    }
    ScanOnce(s, Start, rev);
  }

  /** The state the scan of `"#y a)b c"` reaches after `"#y a)b"`, in both
      revisions: the `)` has closed the one scope the tag opened. */
  lemma ScanToB(s: string, rev: Revision)
    requires s == "#y a)b c"
    ensures Scan(s, Start, rev) ==
      Scan(s[6..], ScanState([Token(Effect, "#y "), Token(Text, "a"), Stop], "b", 0, true), rev)
  {
    ScanToA(s, rev);
    var r := s[4..];
    var st2 := ScanState([Token(Effect, "#y ")], "a", 1, true);
    var st3 := ScanState([Token(Effect, "#y "), Token(Text, "a"), Stop], "", 0, true);
    var st4 := ScanState(st3.tokens, "b", 0, true);
    assert r[1..] == s[5..] && r[1..][1..] == s[6..];
    assert FlushTokens(st2.buffer) == [Token(Text, "a")];
    Three(Token(Effect, "#y "), Token(Text, "a"), Stop);
    ScanClose(r, st2, rev, r[1..], st3);
    ScanPlainChar(r[1..], st3, rev, s[6..], st4);
  }

  /** The scan of `"#y a)b c"` after `"#y a"`. */
  lemma ScanToA(s: string, rev: Revision)
    requires s == "#y a)b c"
    ensures Scan(s, Start, rev) == Scan(s[4..], ScanState([Token(Effect, "#y ")], "a", 1, true), rev)
  {
    ScanPastTag(s, rev);
    var st1 := ScanState([Token(Effect, "#y ")], "", 1, true);
    assert s[3..][1..] == s[4..];
    ScanPlainChar(s[3..], st1, rev, s[4..], ScanState(st1.tokens, "a", 1, true));
  }

  /** `"#y a)b c"`: the `)` closes the next-word scope and the following
      space closes it a second time, so the counter ends at -1 and the
      stream holds one stop more than it has opens. */
  lemma NextWordCloseBelowZero(s: string)
    requires s == "#y a)b c"
    ensures Tokenized(s, AsWritten) ==
      [Token(Effect, "#y "), Token(Text, "a"), Stop, Token(Text, "b"), Stop, Token(Text, " c")]
    ensures Depth(Tokenized(s, AsWritten)) == -1
  {
    NextWordCloseTokens(s);
    DepthOfWitness(Tokenized(s, AsWritten));
  }

  lemma NextWordCloseTokens(s: string)
    requires s == "#y a)b c"
    ensures Tokenized(s, AsWritten) ==
      [Token(Effect, "#y "), Token(Text, "a"), Stop, Token(Text, "b"), Stop, Token(Text, " c")]
  {
    ScanToB(s, AsWritten);
    var st4 := ScanState([Token(Effect, "#y "), Token(Text, "a"), Stop], "b", 0, true);
    var st5 := ScanState(st4.tokens + [Token(Text, "b"), Stop], " ", -1, false);
    var st6 := ScanState(st5.tokens, " c", -1, false);
    assert s[6..][1..] == s[7..] && s[7..][1..] == [];
    ScanWordClose(s[6..], st4, AsWritten, s[7..], st5);
    ScanPlainChar(s[7..], st5, AsWritten, [], st6);
    FinishSix(st6, Token(Effect, "#y "), Token(Text, "a"), Stop, Token(Text, "b"), Stop);
  }

  lemma FinishSix(st: ScanState, a: Token, b: Token, c: Token, d: Token, e: Token)
    requires st.tokens == [a, b, c] + [d, e] && st.buffer != [] && st.numWaitClosing < 0
    ensures Finish(st) == [a, b, c, d, e, Token(Text, st.buffer)]
  {
    assert Stops(st.numWaitClosing) == [];
  }

  /** The depth of a stream shaped like the one above: one open, then two
      stops, with text between. */
  lemma DepthOfWitness(ts: seq<Token>)
    requires |ts| == 6 && ts[0].kind == Effect && ts[1].kind == Text && ts[2].kind == EffectStop
    requires ts[3].kind == Text && ts[4].kind == EffectStop && ts[5].kind == Text
    ensures Depth(ts) == -1
  {
    assert ts[..0] == [];
    DepthOfPrefix(ts, 0);
    DepthOfPrefix(ts, 1);
    DepthOfPrefix(ts, 2);
    DepthOfPrefix(ts, 3);
    DepthOfPrefix(ts, 4);
    DepthOfPrefix(ts, 5);
    assert ts[..6] == ts;
  }

  lemma DepthOfPrefix(ts: seq<Token>, k: nat)
    requires k < |ts|
    ensures Depth(ts[..k + 1]) == Depth(ts[..k]) + Weight(ts[k])
  {
    Push(ts[..k], ts[k]);
    assert ts[..k] + [ts[k]] == ts[..k + 1];
  }

  /** With the guard, the space after `b` is ordinary text and the result is
      balanced. */
  lemma NextWordCloseGuarded(s: string)
    requires s == "#y a)b c"
    ensures Tokenized(s, Corrected) ==
      [Token(Effect, "#y "), Token(Text, "a"), Stop, Token(Text, "b c")]
  {
    ScanToB(s, Corrected);
    var st4 := ScanState([Token(Effect, "#y "), Token(Text, "a"), Stop], "b", 0, true);
    ScanChar(s[6..], st4, Corrected);
    assert s[6..][1..] == s[7..];
    var st5 := ScanState(st4.tokens, "b ", 0, true);
    assert st4.buffer + [s[6]] == "b ";
    ScanChar(s[7..], st5, Corrected);
    assert s[7..][1..] == [];
    assert st5.buffer + [s[7]] == "b c";
    assert Stops(0) == [];
  }

  // The two helpers below take the rest of the input and the next state
  // as parameters, so that a caller names them in its own terms.

  /** `Scan` past a tag that ends at `(`. */
  lemma ScanParenTag(r: string, st: ScanState, rev: Revision, j: nat, rest: string, next: ScanState)
    requires 1 <= j < |r| && IsTagStart(r[0]) && r[j] == '('
    requires forall m :: 1 <= m < j ==> !EndsTag(r[m])
    requires rest == r[j + 1..]
    requires next == ScanState(st.tokens + FlushTokens(st.buffer) + [Token(Effect, r[..j] + "(")], "",
      st.numWaitClosing + 1, st.waitNextWord)
    ensures Scan(r, st, rev) == Scan(rest, next, rev)
  {
    TagEndIs(r, j);
    TagStep(r, st, rev, j);
    assert TagToken(r) == Token(Effect, r[..j] + "(");
    assert st.tokens + (FlushTokens(st.buffer) + [TagToken(r)]) == st.tokens + FlushTokens(st.buffer) + [TagToken(r)];
    ScanOnce(r, st, rev);
  }

  /** `Scan` past a `)` that closes an open scope. */
  lemma ScanClose(r: string, st: ScanState, rev: Revision, rest: string, next: ScanState)
    requires r != [] && r[0] == ')' && st.numWaitClosing > 0 && rest == r[1..]
    requires next == ScanState(st.tokens + FlushTokens(st.buffer) + [Stop], "", st.numWaitClosing - 1, st.waitNextWord)
    ensures Scan(r, st, rev) == Scan(rest, next, rev)
  {
    CloseStep(r, st, rev);
    assert Apply(st, Step(r, st, rev)) == next by {
      assert st.tokens + (FlushTokens(st.buffer) + [Stop]) == st.tokens + FlushTokens(st.buffer) + [Stop];
    }
    ScanOnce(r, st, rev);
  }

  lemma Three(a: Token, b: Token, c: Token)
    ensures [a] + [b] + [c] == [a, b, c]
  {
  }

  /** `Scan` past a space that ends the next word. */
  lemma ScanWordClose(r: string, st: ScanState, rev: Revision, rest: string, next: ScanState)
    requires r != [] && r[0] == ' ' && st.waitNextWord && (rev == AsWritten || st.numWaitClosing > 0)
    requires rest == r[1..]
    requires next == ScanState(st.tokens + [Token(Text, st.buffer), Stop], " ", st.numWaitClosing - 1, false)
    ensures Scan(r, st, rev) == Scan(rest, next, rev)
  {
    WordCloseStep(r, st, rev);
    ScanOnce(r, st, rev);
  }

  /** `Scan` past an ordinary character. */
  lemma ScanPlainChar(r: string, st: ScanState, rev: Revision, rest: string, next: ScanState)
    requires r != [] && !(|r| > 1 && r[0] == '\\' && IsEscapable(r[1])) && !IsTagStart(r[0])
    requires !(r[0] == ')' && st.numWaitClosing > 0)
    requires !(r[0] == ' ' && st.waitNextWord && (rev == AsWritten || st.numWaitClosing > 0))
    requires rest == r[1..] && next == ScanState(st.tokens, st.buffer + [r[0]], st.numWaitClosing, st.waitNextWord)
    ensures Scan(r, st, rev) == Scan(rest, next, rev)
  {
    ScanChar(r, st, rev);
  }

  /** The scan of `"#zz(#yy(x))"` past its first tag. */
  lemma ScanPastFirstTag(s: string, rev: Revision)
    requires s == "#zz(#yy(x))"
    ensures Scan(s, Start, rev) == Scan(s[4..], ScanState([Token(Effect, "#zz(")], "", 1, false), rev)
  {
    assert s[..3] + "(" == "#zz(";
    assert Start.tokens + FlushTokens(Start.buffer) + [Token(Effect, "#zz(")] == [Token(Effect, "#zz(")];
    ScanParenTag(s, Start, rev, 3, s[4..], ScanState([Token(Effect, "#zz(")], "", 1, false));
  }

  /** ... and past its second. */
  lemma ScanPastSecondTag(r: string, rev: Revision)
    requires r == "#yy(x))"
    ensures Scan(r, ScanState([Token(Effect, "#zz(")], "", 1, false), rev) ==
      Scan(r[4..], ScanState([Token(Effect, "#zz("), Token(Effect, "#yy(")], "", 2, false), rev)
  {
    var st1 := ScanState([Token(Effect, "#zz(")], "", 1, false);
    assert r[..3] + "(" == "#yy(";
    assert st1.tokens + FlushTokens(st1.buffer) + [Token(Effect, "#yy(")] == [Token(Effect, "#zz("), Token(Effect, "#yy(")];
    ScanParenTag(r, st1, rev, 3, r[4..], ScanState([Token(Effect, "#zz("), Token(Effect, "#yy(")], "", 2, false));
  }

  /** The scan of `"#zz(#yy(x))"` past its two tags. */
  lemma ScanPastTwoTags(s: string, rev: Revision)
    requires s == "#zz(#yy(x))"
    ensures Scan(s, Start, rev) ==
      Scan(s[8..], ScanState([Token(Effect, "#zz("), Token(Effect, "#yy(")], "", 2, false), rev)
  {
    ScanPastFirstTag(s, rev);
    var r := s[4..];
    ScanPastSecondTag(r, rev);
    assert r[4..] == s[8..];
  }

  /** The rest of `"#zz(#yy(x))"` after its tags: the text and two closes. */
  lemma ScanTextAndCloses(r: string, rev: Revision)
    requires r == "x))"
    ensures Scan(r, ScanState([Token(Effect, "#zz("), Token(Effect, "#yy(")], "", 2, false), rev) ==
      ScanState([Token(Effect, "#zz("), Token(Effect, "#yy("), Token(Text, "x"), Stop, Stop], "", 0, false)
  {
    var e1, e2 := Token(Effect, "#zz("), Token(Effect, "#yy(");
    var st2 := ScanState([e1, e2], "", 2, false);
    var st3 := ScanState([e1, e2], "x", 2, false);
    var st4 := ScanState([e1, e2, Token(Text, "x"), Stop], "", 1, false);
    var st5 := ScanState([e1, e2, Token(Text, "x"), Stop, Stop], "", 0, false);
    assert st2.buffer + [r[0]] == "x";
    ScanPlainChar(r, st2, rev, r[1..], st3);
    assert st3.tokens + FlushTokens(st3.buffer) + [Stop] == st4.tokens;
    ScanClose(r[1..], st3, rev, r[2..], st4);
    assert st4.tokens + FlushTokens(st4.buffer) + [Stop] == st5.tokens;
    ScanClose(r[2..], st4, rev, [], st5);
  }

  /** The scan of `"#zzz(x)"` past its tag. */
  lemma ScanPastZTag(s: string, rev: Revision)
    requires s == "#zzz(x)"
    ensures Scan(s, Start, rev) == Scan(s[5..], ScanState([Token(Effect, "#zzz(")], "", 1, false), rev)
  {
    assert s[..4] + "(" == "#zzz(";
    assert Start.tokens + FlushTokens(Start.buffer) + [Token(Effect, "#zzz(")] == [Token(Effect, "#zzz(")];
    ScanParenTag(s, Start, rev, 4, s[5..], ScanState([Token(Effect, "#zzz(")], "", 1, false));
  }

  /** ... and past its text and close. */
  lemma ScanTextAndClose(r: string, rev: Revision)
    requires r == "x)"
    ensures Scan(r, ScanState([Token(Effect, "#zzz(")], "", 1, false), rev) ==
      ScanState([Token(Effect, "#zzz("), Token(Text, "x"), Stop], "", 0, false)
  {
    var e := Token(Effect, "#zzz(");
    var st1 := ScanState([e], "", 1, false);
    var st2 := ScanState([e], "x", 1, false);
    var st3 := ScanState([e, Token(Text, "x"), Stop], "", 0, false);
    assert st1.buffer + [r[0]] == "x";
    ScanPlainChar(r, st1, rev, r[1..], st2);
    assert st2.tokens + FlushTokens(st2.buffer) + [Stop] == st3.tokens;
    ScanClose(r[1..], st2, rev, [], st3);
  }

  /** `"#zzz(x)"`: a tag, the text and its stop, in both revisions. */
  lemma UnknownTagTokens(s: string, rev: Revision)
    requires s == "#zzz(x)"
    ensures Tokenized(s, rev) == [Token(Effect, "#zzz("), Token(Text, "x"), Stop]
  {
    ScanPastZTag(s, rev);
    ScanTextAndClose(s[5..], rev);
    assert Stops(0) == [];
  }

  /** `"#zz(#yy(x))"`: two tags, the text and two stops, in both revisions
      (the tokenizer does not look tag names up). */
  lemma NestedUnknownTagsTokens(s: string, rev: Revision)
    requires s == "#zz(#yy(x))"
    ensures Tokenized(s, rev) == [Token(Effect, "#zz("), Token(Effect, "#yy("), Token(Text, "x"), Stop, Stop]
  {
    ScanPastTwoTags(s, rev);
    ScanTextAndCloses(s[8..], rev);
    var ts := [Token(Effect, "#zz("), Token(Effect, "#yy("), Token(Text, "x"), Stop, Stop];
    assert Stops(0) == [];
    assert ts + FlushTokens("") + Stops(0) == ts;
  }
}
