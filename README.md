# Coltext markup, modelled in Dafny

Coltext turns a string with colour markup into a string with ANSI SGR
escape codes. The markup has three forms:

- `#r(text)` styles a parenthesised scope;
- `#y word` styles only the next word;
- `<b>(text)` uses an HTML-style acronym.

A `Coltext` is built in three steps. This project models all three, together
with the effect catalogue they use:

- **tokenize** (`Coltext::tokenize`) cuts the input into `text`, `effect` and
  `effect_stop` tokens. It counts the scopes still waiting for their close.
- **apply_effects** (`Coltext::apply_effects`) walks the token list:
  - A tag with a known name becomes the escape code of its effect.
  - A tag with an unknown name becomes plain text.
  - Each close becomes the code that undoes its scope: the enclosing colour,
    taken from a colour history stack, or the style's turn-off code.
- **the constructor** concatenates the values of the tokens that remain.

Modules:

- `Ansi` holds the catalogue:
  - the `Effect` enumeration, as a newtype of its enumerator values;
  - the `effect_off` and `name_to_effect` tables, each built from its
    initializer list by `TableOf`, which keeps the first entry of a
    repeated key (the standard leaves that choice open; no key repeats in
    the `effect_off` list, see `TurnOffKeysDistinct`);
  - the `ESC [ code m` sequence.
- `Tokens` holds the token type and the nesting depth of a token list.
- `Tokenizer` holds:
  - the scan as a specification function (`Step`, `Scan`, `Tokenized`), one
    branch per branch of the loop;
  - `Tokenize`, the loop itself, as a method proved equal to it.
- `Resolver` holds:
  - the walk as a specification function (`StepToken`, `ResolveFrom`,
    `Resolve`);
  - `ApplyEffects`, the loop, as a method proved equal to it.
  The list is rebuilt as a sequence of slots. A deleted token is an `Erased`
  slot.
- `Coltext` holds the rendering and the end-to-end lemmas.

Two defects of the code are modelled side by side with their corrections
through `Revision = AsWritten | Corrected` (see "## Findings"):

- **Tokenizer:** `Corrected` decrements the counter at a next-word close
  only while it is positive. The next-word flag itself is not corrected
  (see "## Left out").
- **Walk:** `Corrected` marks an unknown tag's scope on the `effects` stack,
  so that exactly its own close is dropped. This replaces the boolean
  `ignore_stop`.

Every other branch is the same in both revisions.

Undefined behaviour (`top()` or `pop()` on an empty `std::stack`) ends the
walk as `Failed(EmptyStack, i)`, where `i` is the index of the offending
token. An `effect_off.at` on a missing key ends it as `NoTurnOff`; it is
proved never to happen. `Colored` is `None` exactly when the walk fails.

Three behaviours of the code that a reader of the markup might not expect:

- **Unknown tags keep their text.** An unknown tag is kept as text with the
  `(` or space the tokenizer appended (coltext.hpp:331, 435), and its close
  is dropped (coltext.hpp:459-463). So `"#zzz(x)"` renders as `#zzz(x`,
  not `#zzz(x)`. `Resolver.UnknownNameStep` states this for every unknown
  name, and `Coltext.UnknownTagKeptAsText` proves the rendering of
  `"#zzz(x)"`.
- **`\<` is not an escape.** Only `\(`, `\)` and `\#` are escapes
  (coltext.hpp:297-298).
- **No `rgb[...]` form.** This version of the code has none.

`Tokenizer.Escape` puts a backslash before every `(`, `)` and `#` of a text.
It models no code of its own: it is the inverse of the escape branch at
coltext.hpp:297-305, and serves as the partner of `Tokenizer.EscapeRoundTrip`
and `Coltext.EscapedTextUnchanged`.

## Model

| member | source | states |
|---|---|---|
| Tokenizer.Tokenize | coltext.hpp:285-403 | the loop's token list is the scan specification's. Every token is well formed. Empty text appears only right before a stop. With the guard, opens and stops balance. |
| Tokenizer.Advance | coltext.hpp:294-383 | one pass of the loop body moves the index, buffer, counter and next-word flag as the matching branch of `Step` |
| Tokenizer.AdvanceTag | coltext.hpp:307-341 | the tag branch: flush a non-empty buffer, capture the tag, append `(` or the space, emit one effect token, count one more open scope |
| Tokenizer.CaptureTag | coltext.hpp:319-324 | the do-while takes at least one character and stops at the first `(`, space or end of input |
| Tokenizer.FinishTokens | coltext.hpp:385-400 | flushes a non-empty buffer, then appends one stop per scope still open, and none when the counter is zero or negative |
| Tokenizer.Step | coltext.hpp:296-382 | one loop pass consumes at least one character and no more than the rest of the input, and emits at most two tokens, a text before a stop or tag when two. The counter changes by one per emitted open or stop and otherwise not. With the guard it never drops from zero or below. |
| Tokenizer.EscapeStep | coltext.hpp:297-305 | `\(`, `\)` and `\#` put only the second character into the buffer and leave the counter and the flag alone |
| Tokenizer.CharStep | coltext.hpp:382 | any other character, including a backslash before a non-special character and a `)` while no scope is open, is appended to the buffer literally |
| Tokenizer.CloseStep | coltext.hpp:343-361 | a `)` while a scope is open flushes a non-empty buffer, emits a stop and counts one scope fewer |
| Tokenizer.WordCloseStep | coltext.hpp:363-380 | a space after a next-word tag emits the buffer (even empty) and a stop, restarts the buffer with the space and clears the flag |
| Tokenizer.TokenizedWellFormed | coltext.hpp:319-336 | every effect token is a `#` or `<` tag with one appended `(` or space and none inside, so it has at least two characters. Every stop is `)`. |
| Tokenizer.TokenizedEmptyText | coltext.hpp:368-371 | in the whole token list, a text token is empty only when it directly precedes a stop |
| Tokenizer.OnlyWordCloseEmitsEmptyText | coltext.hpp:310-371 | the only loop pass that pushes an empty text token is the next-word close on an empty buffer, and it pushes exactly that token and a stop; the flushes at a tag and at a `)` never push one |
| Tokenizer.FinalFlushNotEmpty | coltext.hpp:385-392 | the flush after the loop never pushes an empty text token |
| Tokenizer.CounterTracksDepth | coltext.hpp:394-400 | the token list's opens minus stops equals the final counter when that is negative, and zero otherwise |
| Tokenizer.CorrectedScanNeverNegative | coltext.hpp:339-365 | with the guard the counter always equals opens minus stops emitted so far, and no prefix closes more scopes than it opened |
| Tokenizer.CorrectedBalanced | coltext.hpp:363-365 | with the guard every token list is balanced: no prefix closes more than it opened, and the whole list closes all it opens |
| Tokenizer.PlainTextIdentity | coltext.hpp:294-392 | input with no tag start and no escape tokenizes to no token (empty input) or one text token equal to the input |
| Tokenizer.EscapeRoundTrip | coltext.hpp:297-305 | escaping every `(`, `)` and `#` of a text without `<` tokenizes back to that text as one token |
| Tokenizer.SameStep | coltext.hpp:363-365 | a loop pass that leaves the counter non-negative is the same pass with or without the guard |
| Tokenizer.NonNegativeBalanced | coltext.hpp:339-400 | as written, an input whose counter never goes negative tokenizes as with the guard, so its opens and stops balance |
| Tokenizer.UnknownTagTokens | coltext.hpp:307-361 | `"#zzz(x)"` gives one open, the text `x` and one stop |
| Tokenizer.NextWordCloseBelowZero | coltext.hpp:363-365 | `"#y a)b c"` as written gives one open and two stops, a depth of -1 |
| Tokenizer.NextWordCloseGuarded | coltext.hpp:363-365 | with the guard `"#y a)b c"` gives one open, one stop, and `b c` as text |
| Tokenizer.NestedUnknownTagsTokens | coltext.hpp:307-361 | `"#zz(#yy(x))"` gives two opens, the text `x` and two stops |
| Tokens.Push | coltext.hpp:339-345 | appending a token adds its weight (+1 open, -1 stop) to the depth, and the list stays never-negative exactly when the new depth is |
| Resolver.ApplyEffects | coltext.hpp:405-491 | the loop's slots and final stacks, or the index where it fails, are those of the walk specification `Resolve` |
| Resolver.ResolveToken | coltext.hpp:420-489 | one pass of the loop is one `StepToken` |
| Resolver.ResolveEffect | coltext.hpp:423-454 | an effect token is the `StepEffect` outcome |
| Resolver.OpenScope | coltext.hpp:443-454 | pushing an effect and, for a colour, its history is `Open` |
| Resolver.ResolveStop | coltext.hpp:457-483 | a stop token is the `StepStop` outcome |
| Resolver.CloseScope | coltext.hpp:466-482 | closing a popped scope is `Close` |
| Resolver.ResolvedSlots | coltext.hpp:417-489 | a completed walk keeps one slot per token. Text stays unchanged. A known tag becomes the escape code of its effect. An unknown tag becomes text with its raw value. A stop becomes an escape code or is erased. |
| Resolver.UnknownNameStep | coltext.hpp:430-438 | a tag whose name is not in the table becomes text with its raw value, including the appended `(` or space. As written it sets `ignore_stop`; corrected it pushes an unknown scope. No colour history changes. |
| Resolver.SingleUnknownTag | coltext.hpp:430-463 | the tokens of `"#zzz(x)"` keep the tag as text, keep `x` and erase the stop, leaving the stacks at their seeds, in both revisions |
| Resolver.UnknownTagStep | coltext.hpp:430-438 | a two-letter tag not starting with `b`, which is never a name, becomes text with its raw value, including the appended `(`. As written it sets `ignore_stop`; corrected it pushes an unknown scope. No colour history changes. |
| Resolver.StopKeepsSynced | coltext.hpp:457-483 | a stop that is not ignored fails exactly when `effects` is empty; otherwise it pops one scope and keeps the histories in step with the open colours |
| Resolver.CloseRestores | coltext.hpp:466-482 | closing a colour emits the enclosing colour of its plane, or 39/49 when none is left. Closing a style emits its `effect_off` entry. Closing an unknown scope emits nothing. |
| Resolver.CloseKnownRestores | coltext.hpp:469-482 | closing a known effect pops only its own plane's history back to the open colours, and never gets stuck |
| Resolver.WalkKeepsHistories | coltext.hpp:410-413 | in both revisions the histories never drop below their seeds 39 and 49. The only way the walk fails is `EmptyStack` at a stop token; `effect_off.at` never misses. |
| Resolver.ResolvesIffNeverNegative | coltext.hpp:457-467 | corrected, the walk completes exactly when no prefix of the tokens closes more scopes than it opened |
| Resolver.CorrectedFailsOnlyAtStop | coltext.hpp:466-467 | corrected, a failed walk stops with `EmptyStack` at the first stop token that closes more scopes than the tokens before it opened: those tokens never go negative and leave depth 0, so the `effects` stack is empty there |
| Resolver.CorrectedResolvesBalanced | coltext.hpp:405-491 | corrected, a balanced token list is walked to the end with all three stacks back at their seeds and the flag clear |
| Resolver.AsWrittenEndsAtSeed | coltext.hpp:405-491 | as written, whenever the walk over a tokenized input reaches the end, the `effects` stack is empty, both histories are back at their seeds 39 and 49, and `ignore_stop` is clear |
| Resolver.AgreesWithoutUnknownTags | coltext.hpp:436 | without unknown tags, the as-written and corrected walks give the same result |
| Resolver.KnownNamesResolveIffNeverNegative | coltext.hpp:466 | as written, a token list whose tags all have known names is walked to the end exactly when no prefix closes more than it opened |
| Resolver.NestedUnknownTagsAsWritten | coltext.hpp:436 | as written, the tokens of `"#zz(#yy(x))"` reach `top()` on an empty `effects` stack at the second stop |
| Resolver.NestedUnknownTagsCorrected | coltext.hpp:430-438 | corrected, the same tokens keep both tags as text and erase both stops, leaving the stacks at their seeds |
| Ansi.FgRangeIsFgColours | coltext.hpp:450-451 | the foreground range test (30-37 or 90-97) holds exactly for the sixteen foreground colours |
| Ansi.BgRangeIsBgColours | coltext.hpp:444-445 | the background range test (40-47 or 100-107) holds exactly for the sixteen background colours |
| Ansi.TableOfEntry | coltext.hpp:168-239 | a key is in a table built from an initializer list exactly when some entry carries it, and its value is one such entry's |
| Ansi.TableOfFirst | coltext.hpp:168-239 | the first entry of a key gives its value in the table |
| Ansi.EffectOffKeysAreStyles | coltext.hpp:168-180 | `effect_off` has an entry for exactly the eleven styles |
| Ansi.TurnOffCodes | coltext.hpp:170-179 | bold and faint turn off with 22, underline and double underline with 24, framed and encircled with 54, italic 23, blink 25, reverse 27, crossed 29, overlined 55 |
| Ansi.TurnOffCategory | coltext.hpp:100-110 | every turn-off effect is neither a style nor a colour |
| Ansi.TurnOffsAreNotOpened | coltext.hpp:168-239 | no turn-off effect is a colour, has a turn-off of its own, or is the effect of any name |
| Ansi.EffectOffTotal | coltext.hpp:183-239 | every name opens a style or a colour, and every such effect can be closed: a colour by its history, a style by `effect_off` |
| Ansi.NameEntriesOpen | coltext.hpp:184-238 | every entry of `name_to_effect` is a style or a colour |
| Ansi.TwoLetterNamesAreBright | coltext.hpp:183-239 | no two-letter name starts with anything but `b`, so `#zz(` and `#yy(` are unknown tags |
| Ansi.ZNamesAreUnknown | coltext.hpp:183-239 | no name begins with `z`, so `#zzz(` is an unknown tag |
| Ansi.DecimalRoundTrip | coltext.hpp:486 | the decimal digits written for a code read back as that code |
| Ansi.SgrRoundTrip | coltext.hpp:486-488 | every escape code is `ESC [`, decimal digits and `m`, and decodes back to its code |
| Coltext.Render | coltext.hpp:258 | the rendering loop produces the concatenation of the kept tokens' values in order |
| Coltext.ConcatAppend | coltext.hpp:258 | concatenation distributes over joining two runs of tokens |
| Coltext.Colorize | coltext.hpp:253-259 | the constructor's coloured string is `Colored`: tokenize, walk, concatenate, or nothing when the walk fails |
| Coltext.CorrectedAlwaysColors | coltext.hpp:253-259 | with both corrections every input has a coloured string |
| Coltext.PlainTextUnchanged | coltext.hpp:253-259 | text with no markup comes out unchanged |
| Coltext.EscapedTextUnchanged | coltext.hpp:297-305 | escaping `(`, `)` and `#` in a text without `<` makes the text come out unchanged |
| Coltext.UnknownTagKeptAsText | coltext.hpp:253-259 | `"#zzz(x)"` comes out as `#zzz(x` in both revisions: the tag stays, its close is dropped |
| Coltext.NonNegativeKnownNamesColor | coltext.hpp:253-259 | as written, an input whose counter never goes negative and whose tags all have known names gets a coloured string, the same as with both corrections |
| Coltext.NestedUnknownTagsUndefined | coltext.hpp:436 | as written `"#zz(#yy(x))"` has no coloured string |
| Coltext.NestedUnknownTagsKeptAsText | coltext.hpp:430-438 | corrected, `"#zz(#yy(x))"` comes out as `#zz(#yy(x` |
| Coltext.NextWordCloseUndefined | coltext.hpp:363-365 | as written `"#y a)b c"` has no coloured string |

## Left out

- **Stream operators** (`operator>>`, `operator<<`, coltext.hpp:266-278): stream I/O.
- **Glue:** the `_col` literal, the default and `std::string` constructors,
  and `operator+=`. They only call the modelled constructor body.
- **`operator+`:** declared at coltext.hpp:47 but never defined.
- **`rgb[...]` and the `\<` escape:** this version of the code has neither.
- **Hashing and bucket order of `std::unordered_map`:** the tables are
  built from their initializer lists, and the model keeps the first entry
  of a repeated key, which the standard does not fix.
- **Duplicate names:** the name table's keys are not proved distinct.
  Lookups are stated through `TableOfEntry` (some entry carries the key)
  rather than as a value per name.
- **`std::list` erase and iterators:** an erased token is an `Erased` slot
  that the rendering skips.
- **Integer widths:** `int` for the counter and `size_t` for the index do
  not overflow in the model. An input would need more than 2^31 tags to
  overflow the counter.
- **`++i` after a tag:** after a tag that runs to the end of input, the loop
  index goes one past `len`, and the loop ends either way. The model stops
  at the end of the input.
- Tokenizer.Step: the corrected revision guards only the counter. The
  next-word flag stays set after a `)` has closed the next-word scope, as in
  the code. So in `"#y a)b #r(c d)"` the space after `c` still ends a "next
  word" and closes `#r(`, and the final `)` is text. A counter cannot tell
  which scope a `)` closes, so this is not corrected.
- **Bytes and characters:** the code scans the bytes of a `const char *`
  (coltext.hpp:286, 296); the model scans a `string` of characters. Every
  character the scan tests (`\`, `#`, `<`, `(`, `)`, space) is ASCII, and
  no UTF-8 multi-byte sequence contains an ASCII byte. So the two agree on
  ASCII and UTF-8 input. Other encodings are not modelled.
- **Terminal behaviour:** whether a terminal honours a code is not modelled.
- **Multi-scope example:** `"#C(You #r(can) use ...)"` is not checked as a
  concrete example. The nesting behaviour it shows is what
  `Resolver.CloseRestores` states for every input.

## Findings

| source | as written | input that shows it | evidently intended | confidence | as-written member | corrected member |
|---|---|---|---|---|---|---|
| coltext.hpp:363-365 | a space after a next-word tag decrements the scope counter even when the word's scope was already closed by `)` | `"#y a)b c"`: one open and two stops, then `top()` on an empty `effects` stack | decrement the counter at a next-word close only while it is positive, so every token list is balanced | not executed | Tokenizer.NextWordCloseBelowZero | Tokenizer.CorrectedBalanced |
| coltext.hpp:436 | `ignore_stop` is one boolean, so a second unknown tag before the first one's close leaves a close that pops an empty `effects` stack; the flag also drops the next stop even when a known scope owns it, so `"#zz(#r(x) y)"` leaves ` y` red | `"#zz(#yy(x))"`: the second stop calls `top()` on an empty stack | each unknown tag's own close is dropped, and every balanced token list is walked to the end | not executed | Resolver.NestedUnknownTagsAsWritten | Resolver.CorrectedResolvesBalanced |
