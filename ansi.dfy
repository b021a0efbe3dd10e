/** The effect catalog of coltext.hpp: the SGR codes Coltext knows (ECMA-48
    section 8.3.117, with the aixterm bright colours 90-97 and 100-107), the
    map from a style to its dedicated turn-off code, and the map from markup
    names to effects. */
module Ansi {

  /** `ansi::Effect`: an enumeration whose enumerators carry their SGR
      parameter as value. The model keeps the values: an effect is one of
      the numbers the enumeration lists, and each enumerator is a constant. */
  newtype Effect = c: int | 0 <= c && IsEnumerator(c)

  /** The values the enumeration lists. */
  predicate IsEnumerator(c: int) {
    0 <= c <= 5 ||
    c == 7 ||
    c == 9 ||
    21 <= c <= 25 ||
    c == 27 ||
    29 <= c <= 49 ||
    51 <= c <= 55 ||
    90 <= c <= 97 ||
    100 <= c <= 107
  }

  const Reset: Effect := 0
  const Bold: Effect := 1
  const Faint: Effect := 2
  const Italic: Effect := 3
  const Underline: Effect := 4
  const Blink: Effect := 5
  const Reverse: Effect := 7
  const Crossed: Effect := 9
  const DoubleUnderline: Effect := 21
  const NormalIntensity: Effect := 22
  const ItalicOff: Effect := 23
  const UnderlineOff: Effect := 24
  const BlinkOff: Effect := 25
  const ReverseOff: Effect := 27
  const CrossedOff: Effect := 29
  const BlackFg: Effect := 30
  const RedFg: Effect := 31
  const GreenFg: Effect := 32
  const YellowFg: Effect := 33
  const BlueFg: Effect := 34
  const MagentaFg: Effect := 35
  const CyanFg: Effect := 36
  const WhiteFg: Effect := 37
  const RgbFg: Effect := 38
  const DefaultFg: Effect := 39
  const BlackBg: Effect := 40
  const RedBg: Effect := 41
  const GreenBg: Effect := 42
  const YellowBg: Effect := 43
  const BlueBg: Effect := 44
  const MagentaBg: Effect := 45
  const CyanBg: Effect := 46
  const WhiteBg: Effect := 47
  const RgbBg: Effect := 48
  const DefaultBg: Effect := 49
  const Framed: Effect := 51
  const Encircled: Effect := 52
  const Overlined: Effect := 53
  const FramedOff: Effect := 54
  const OverlinedOff: Effect := 55
  const BrightBlackFg: Effect := 90
  const BrightRedFg: Effect := 91
  const BrightGreenFg: Effect := 92
  const BrightYellowFg: Effect := 93
  const BrightBlueFg: Effect := 94
  const BrightMagentaFg: Effect := 95
  const BrightCyanFg: Effect := 96
  const BrightWhiteFg: Effect := 97
  const BrightBlackBg: Effect := 100
  const BrightRedBg: Effect := 101
  const BrightGreenBg: Effect := 102
  const BrightYellowBg: Effect := 103
  const BrightBlueBg: Effect := 104
  const BrightMagentaBg: Effect := 105
  const BrightCyanBg: Effect := 106
  const BrightWhiteBg: Effect := 107

  /** The enumerator's numeric value, i.e. its SGR parameter. */
  function Code(e: Effect): nat {
    e as nat
  }

  /** The resolver's range test for a background colour: black_bg..white_bg
      or bright_black_bg..bright_white_bg, compared as enumerator values. */
  predicate IsBg(e: Effect) {
    (40 <= Code(e) <= 47) || (100 <= Code(e) <= 107)
  }

  /** The range test for a foreground colour: black_fg..white_fg or
      bright_black_fg..bright_white_fg. */
  predicate IsFg(e: Effect) {
    (30 <= Code(e) <= 37) || (90 <= Code(e) <= 97)
  }

  /** The map built from an initializer list of `std::unordered_map`. The
      model keeps the first entry of a repeated key; the standard does not
      fix which one is kept, and no key repeats in the `effect_off` list
      (`TurnOffKeysDistinct`). */
  function TableOf<K, V>(entries: seq<(K, V)>): map<K, V> {
    if entries == [] then map[] else TableOf(entries[1..])[entries[0].0 := entries[0].1]
  }

  /** A key is in the table exactly when some entry carries it, and then the
      table gives the value of one such entry. */
  lemma {:induction false} TableOfEntry<K, V>(entries: seq<(K, V)>, key: K)
    ensures key in TableOf(entries) <==> exists i :: 0 <= i < |entries| && entries[i].0 == key
    ensures key in TableOf(entries) ==>
      exists i :: 0 <= i < |entries| && entries[i].0 == key && TableOf(entries)[key] == entries[i].1
  {
    if entries != [] {
      var rest := entries[1..];
      TableOfEntry(rest, key);
      if key != entries[0].0 && key in TableOf(entries) {
        var i :| 0 <= i < |rest| && rest[i].0 == key && TableOf(rest)[key] == rest[i].1;
        assert entries[i + 1] == rest[i];
      }
      if key != entries[0].0 && key !in TableOf(entries) {
        forall i | 0 <= i < |entries| ensures entries[i].0 != key {
          if i > 0 {
            assert entries[i] == rest[i - 1];
          }
        }
      }
      if key == entries[0].0 {
        assert entries[0].0 == key && TableOf(entries)[key] == entries[0].1;
      }
    }
  }

  /** Where a key occurs more than once, the table keeps the value of its
      first entry, as inserting an initializer list into a map does. */
  lemma {:induction false} TableOfFirst<K, V>(entries: seq<(K, V)>, i: nat)
    requires i < |entries|
    requires forall j :: 0 <= j < i ==> entries[j].0 != entries[i].0
    ensures entries[i].0 in TableOf(entries) && TableOf(entries)[entries[i].0] == entries[i].1
  {
    if i > 0 {
      var rest := entries[1..];
      assert rest[i - 1] == entries[i];
      forall j | 0 <= j < i - 1
        ensures rest[j].0 != rest[i - 1].0
      {
        assert rest[j] == entries[j + 1];
      }
      TableOfFirst(rest, i - 1);
    }
  }

  /** `effect_off`: the dedicated turn-off effect of each style. Colours have
      no entry; they are restored from a history stack instead. */
  const EffectOff: map<Effect, Effect> := TableOf(TurnOffs)

  const TurnOffs: seq<(Effect, Effect)> := [
    (Bold, NormalIntensity), (Faint, NormalIntensity),
    (Underline, UnderlineOff), (DoubleUnderline, UnderlineOff),
    (Framed, FramedOff), (Encircled, FramedOff),
    (Italic, ItalicOff),
    (Blink, BlinkOff),
    (Reverse, ReverseOff),
    (Crossed, CrossedOff),
    (Overlined, OverlinedOff)
  ]

  /** `name_to_effect`: the markup names and acronyms a tag may carry, in the
      order of the source's initializer list. */
  const NameToEffect: map<string, Effect> := TableOf(NameEntries)

  const NameEntries: seq<(string, Effect)> :=
    StyleEntries + FgEntries + BgEntries + BrightFgEntries + BrightBgEntries

  /** Styles, by name, with HTML tags as acronyms for the four common ones. */
  const StyleEntries: seq<(string, Effect)> := [
    ("bold", Bold), ("<b>", Bold),
    ("faint", Faint), ("<f>", Faint),
    ("italic", Italic), ("<i>", Italic),
    ("underline", Underline), ("<u>", Underline),
    ("double_underline", DoubleUnderline),
    ("crossed", Crossed),
    ("blink", Blink), ("reverse", Reverse),
    ("framed", Framed), ("encircled", Encircled), ("overlined", Overlined)
  ]

  /** Foreground colours: lower-case names and their RGB/CMYK letters. */
  const FgEntries: seq<(string, Effect)> := [
    ("black", BlackFg), ("k", BlackFg), ("red", RedFg), ("r", RedFg),
    ("green", GreenFg), ("g", GreenFg), ("yellow", YellowFg), ("y", YellowFg),
    ("blue", BlueFg), ("b", BlueFg), ("magenta", MagentaFg), ("m", MagentaFg),
    ("cyan", CyanFg), ("c", CyanFg), ("white", WhiteFg), ("w", WhiteFg)
  ]

  /** Background colours: the same names and letters, capitalised. */
  const BgEntries: seq<(string, Effect)> := [
    ("Black", BlackBg), ("K", BlackBg), ("Red", RedBg), ("R", RedBg),
    ("Green", GreenBg), ("G", GreenBg), ("Yellow", YellowBg), ("Y", YellowBg),
    ("Blue", BlueBg), ("B", BlueBg), ("Magenta", MagentaBg), ("M", MagentaBg),
    ("Cyan", CyanBg), ("C", CyanBg), ("White", WhiteBg), ("W", WhiteBg)
  ]

  /** Bright foreground colours: "bright_" names and "b" + letter. */
  const BrightFgEntries: seq<(string, Effect)> := [
    ("bright_black", BrightBlackFg), ("bk", BrightBlackFg),
    ("bright_red", BrightRedFg), ("br", BrightRedFg),
    ("bright_green", BrightGreenFg), ("bg", BrightGreenFg),
    ("bright_yellow", BrightYellowFg), ("by", BrightYellowFg),
    ("bright_blue", BrightBlueFg), ("bb", BrightBlueFg),
    ("bright_magenta", BrightMagentaFg), ("bm", BrightMagentaFg),
    ("bright_cyan", BrightCyanFg), ("bc", BrightCyanFg),
    ("bright_white", BrightWhiteFg), ("bw", BrightWhiteFg)
  ]

  /** Bright background colours: the same, capitalised after "bright_" or "b". */
  const BrightBgEntries: seq<(string, Effect)> := [
    ("bright_Black", BrightBlackBg), ("bK", BrightBlackBg),
    ("bright_Red", BrightRedBg), ("bR", BrightRedBg),
    ("bright_Green", BrightGreenBg), ("bG", BrightGreenBg),
    ("bright_Yellow", BrightYellowBg), ("bY", BrightYellowBg),
    ("bright_Blue", BrightBlueBg), ("bB", BrightBlueBg),
    ("bright_Magenta", BrightMagentaBg), ("bM", BrightMagentaBg),
    ("bright_Cyan", BrightCyanBg), ("bC", BrightCyanBg),
    ("bright_White", BrightWhiteBg), ("bW", BrightWhiteBg)
  ]

  /** The styles, and the two colour planes, listed constructor by
      constructor: an independent account of what the resolver's numeric
      range tests and the keys of `effect_off` pick out. */
  predicate IsStyle(e: Effect) {
    e == Bold || e == Faint || e == Italic || e == Underline || e == Blink || e == Reverse ||
    e == Crossed || e == DoubleUnderline || e == Framed || e == Encircled || e == Overlined
  }

  predicate IsFgColour(e: Effect) {
    e == BlackFg || e == RedFg || e == GreenFg || e == YellowFg ||
    e == BlueFg || e == MagentaFg || e == CyanFg || e == WhiteFg ||
    e == BrightBlackFg || e == BrightRedFg || e == BrightGreenFg || e == BrightYellowFg ||
    e == BrightBlueFg || e == BrightMagentaFg || e == BrightCyanFg || e == BrightWhiteFg
  }

  predicate IsBgColour(e: Effect) {
    e == BlackBg || e == RedBg || e == GreenBg || e == YellowBg ||
    e == BlueBg || e == MagentaBg || e == CyanBg || e == WhiteBg ||
    e == BrightBlackBg || e == BrightRedBg || e == BrightGreenBg || e == BrightYellowBg ||
    e == BrightBlueBg || e == BrightMagentaBg || e == BrightCyanBg || e == BrightWhiteBg
  }

  /** The foreground range test holds of exactly the sixteen foreground
      colours (not of rgb_fg or default_fg). */
  lemma FgRangeIsFgColours(e: Effect)
    ensures IsFg(e) <==> IsFgColour(e)
  {
    if IsFgColour(e) {
      FgColoursInRange(e);
    } else if IsFg(e) {
      FgRangeOnlyColours(e);
    }
  }

  lemma FgColoursInRange(e: Effect)
    requires IsFgColour(e)
    ensures IsFg(e)
  {
  }

  lemma FgRangeOnlyColours(e: Effect)
    requires IsFg(e)
    ensures IsFgColour(e)
  {
  }

  /** The background range test holds of exactly the sixteen background
      colours (not of rgb_bg or default_bg). */
  lemma BgRangeIsBgColours(e: Effect)
    ensures IsBg(e) <==> IsBgColour(e)
  {
    if IsBgColour(e) {
      BgColoursInRange(e);
    } else if IsBg(e) {
      BgRangeOnlyColours(e);
    }
  }

  lemma BgColoursInRange(e: Effect)
    requires IsBgColour(e)
    ensures IsBg(e)
  {
  }

  lemma BgRangeOnlyColours(e: Effect)
    requires IsBg(e)
    ensures IsBgColour(e)
  {
  }

  /** What a markup name can open: a style or a colour of either plane. */
  predicate IsStyleOrColour(e: Effect) {
    IsStyle(e) || IsFgColour(e) || IsBgColour(e)
  }

  /** Every key of `effect_off` is a style, and no value is a style or a
      colour. */
  lemma TurnOffEntries()
    ensures forall i :: 0 <= i < |TurnOffs| ==> IsStyle(TurnOffs[i].0)
    ensures forall i :: 0 <= i < |TurnOffs| ==> !IsStyleOrColour(TurnOffs[i].1)
  {
  }

  /** `effect_off` has an entry for exactly the styles. */
  lemma EffectOffKeysAreStyles(e: Effect)
    ensures e in EffectOff <==> IsStyle(e)
  {
    TableOfEntry(TurnOffs, e);
    TurnOffEntries();
    if IsStyle(e) {
      StylesHaveTurnOffs(e);
    }
  }

  lemma StylesHaveTurnOffs(e: Effect)
    requires IsStyle(e)
    ensures exists i :: 0 <= i < |TurnOffs| && TurnOffs[i].0 == e
  {
    var keys := [Bold, Faint, Underline, DoubleUnderline, Framed, Encircled, Italic, Blink, Reverse, Crossed, Overlined];
    assert forall i :: 0 <= i < |keys| ==> TurnOffs[i].0 == keys[i];
    assert e in keys;
    var i :| 0 <= i < |keys| && keys[i] == e;
    assert TurnOffs[i].0 == e;
  }

  lemma TurnOffKeysDistinct(i: nat, j: nat)
    requires j < i < |TurnOffs|
    ensures TurnOffs[j].0 != TurnOffs[i].0
  {
  }

  /** `effect_off` maps each key of its initializer list to that entry's
      value. */
  lemma TurnOffLookup(i: nat)
    requires i < |TurnOffs|
    ensures TurnOffs[i].0 in EffectOff && EffectOff[TurnOffs[i].0] == TurnOffs[i].1
  {
    forall j | 0 <= j < i
      ensures TurnOffs[j].0 != TurnOffs[i].0
    {
      TurnOffKeysDistinct(i, j);
    }
    TableOfFirst(TurnOffs, i);
  }

  /** The turn-off codes: bold and faint end with 22, underline and double
      underline with 24, framed and encircled with 54, italic with 23, blink
      with 25, reverse with 27, crossed with 29 and overlined with 55. */
  lemma TurnOffCodes()
    ensures Bold in EffectOff && Code(EffectOff[Bold]) == 22
    ensures Faint in EffectOff && Code(EffectOff[Faint]) == 22
    ensures Underline in EffectOff && Code(EffectOff[Underline]) == 24
    ensures DoubleUnderline in EffectOff && Code(EffectOff[DoubleUnderline]) == 24
    ensures Framed in EffectOff && Code(EffectOff[Framed]) == 54
    ensures Encircled in EffectOff && Code(EffectOff[Encircled]) == 54
    ensures Italic in EffectOff && Code(EffectOff[Italic]) == 23
    ensures Blink in EffectOff && Code(EffectOff[Blink]) == 25
    ensures Reverse in EffectOff && Code(EffectOff[Reverse]) == 27
    ensures Crossed in EffectOff && Code(EffectOff[Crossed]) == 29
    ensures Overlined in EffectOff && Code(EffectOff[Overlined]) == 55
  {
    TurnOffLookup(0);
    TurnOffLookup(1);
    TurnOffLookup(2);
    TurnOffLookup(3);
    TurnOffLookup(4);
    TurnOffLookup(5);
    TurnOffLookup(6);
    TurnOffLookup(7);
    TurnOffLookup(8);
    TurnOffLookup(9);
    TurnOffLookup(10);
  }

  /** What the resolver can do when a scope of `e` closes: restore a colour
      from a history stack, or look up the style's turn-off effect. */
  predicate Closable(e: Effect) {
    IsFg(e) || IsBg(e) || e in EffectOff
  }

  // One lemma per group of the name table keeps each proof small.

  lemma StyleEntriesAreStyles()
    ensures forall i :: 0 <= i < |StyleEntries| ==> IsStyle(StyleEntries[i].1)
  {
  }

  lemma FgEntriesAreFgColours()
    ensures forall i :: 0 <= i < |FgEntries| ==> IsFgColour(FgEntries[i].1)
  {
  }

  lemma BgEntriesAreBgColours()
    ensures forall i :: 0 <= i < |BgEntries| ==> IsBgColour(BgEntries[i].1)
  {
  }

  lemma BrightFgEntriesAreFgColours()
    ensures forall i :: 0 <= i < |BrightFgEntries| ==> IsFgColour(BrightFgEntries[i].1)
  {
  }

  lemma BrightBgEntriesAreBgColours()
    ensures forall i :: 0 <= i < |BrightBgEntries| ==> IsBgColour(BrightBgEntries[i].1)
  {
  }

  /** Every entry of the name table opens a style or a colour. */
  lemma NameEntriesOpen()
    ensures forall i :: 0 <= i < |NameEntries| ==> IsStyleOrColour(NameEntries[i].1)
  {
    StyleEntriesAreStyles();
    FgEntriesAreFgColours();
    BgEntriesAreBgColours();
    BrightFgEntriesAreFgColours();
    BrightBgEntriesAreBgColours();
  }

  /** Every effect a name can reach is a style, a foreground or a background
      colour, so it is closable: the `effect_off.at(e)` of the resolver's
      style branch never misses. */
  lemma EffectOffTotal(name: string)
    requires name in NameToEffect
    ensures IsStyleOrColour(NameToEffect[name])
    ensures Closable(NameToEffect[name])
  {
    TableOfEntry(NameEntries, name);
    NameEntriesOpen();
    var e := NameToEffect[name];
    FgRangeIsFgColours(e);
    BgRangeIsBgColours(e);
    EffectOffKeysAreStyles(e);
  }

  lemma TurnOffCategory(e: Effect)
    requires e in EffectOff
    ensures !IsStyleOrColour(EffectOff[e])
  {
    TableOfEntry(TurnOffs, e);
    TurnOffEntries();
  }

  /** A turn-off effect is neither a colour nor a style, so no markup name
      opens it and it never needs turning off itself. */
  lemma TurnOffsAreNotOpened(e: Effect)
    requires e in EffectOff
    ensures !IsFg(EffectOff[e]) && !IsBg(EffectOff[e]) && EffectOff[e] !in EffectOff
    ensures forall name :: name in NameToEffect ==> NameToEffect[name] != EffectOff[e]
  {
    TurnOffCategory(e);
    var off := EffectOff[e];
    FgRangeIsFgColours(off);
    BgRangeIsBgColours(off);
    EffectOffKeysAreStyles(off);
    forall name | name in NameToEffect
      ensures NameToEffect[name] != off
    {
      EffectOffTotal(name);
    }
  }

  // ---------------------------------------------------------------------
  // Escape sequences

  const Esc: char := '\U{1B}'

  function DigitChar(d: nat): (c: char)
    requires d < 10
    ensures '0' <= c <= '9'
  {
    "0123456789"[d]
  }

  /** `std::to_string` of a non-negative integer. */
  function Decimal(n: nat): (s: string)
    ensures |s| >= 1 && forall i :: 0 <= i < |s| ==> '0' <= s[i] <= '9'
  {
    if n < 10 then [DigitChar(n)] else Decimal(n / 10) + [DigitChar(n % 10)]
  }

  /** Reads a string of decimal digits back into a number. */
  function ParseDecimal(s: string): nat
    requires forall i :: 0 <= i < |s| ==> '0' <= s[i] <= '9'
  {
    if s == [] then 0 else ParseDecimal(s[..|s| - 1]) * 10 + (s[|s| - 1] as int - '0' as int)
  }

  lemma {:induction false} DecimalRoundTrip(n: nat)
    ensures ParseDecimal(Decimal(n)) == n
  {
    if n >= 10 {
      DecimalRoundTrip(n / 10);
      var s := Decimal(n);
      assert s[..|s| - 1] == Decimal(n / 10);
    }
  }

  /** "\033[" + std::to_string(code) + "m": the CSI form of an SGR control
      function (ECMA-48 section 5.4). */
  function Sgr(code: nat): string {
    [Esc, '['] + Decimal(code) + "m"
  }

  /** The shape of an SGR sequence with a single numeric parameter. */
  predicate IsSgr(v: string) {
    |v| >= 4 && v[0] == Esc && v[1] == '[' && v[|v| - 1] == 'm' &&
    forall i :: 2 <= i < |v| - 1 ==> '0' <= v[i] <= '9'
  }

  /** The parameter of an SGR sequence. */
  function SgrCode(v: string): nat
    requires IsSgr(v)
  {
    ParseDecimal(v[2..|v| - 1])
  }

  /** Every sequence the resolver writes has the SGR shape and gives back the
      code it was made from. */
  lemma SgrRoundTrip(code: nat)
    ensures IsSgr(Sgr(code)) && SgrCode(Sgr(code)) == code
  {
    var v := Sgr(code);
    assert v[2..|v| - 1] == Decimal(code);
    DecimalRoundTrip(code);
  }

  // ---------------------------------------------------------------------
  // Names that are not in the table

  /** No style, colour or capitalised name is two letters long; the bright
      acronyms are, and they all begin with 'b'. */
  lemma TwoLetterKeys(name: string)
    requires |name| == 2 && name[0] != 'b'
    ensures forall i :: 0 <= i < |StyleEntries| ==> StyleEntries[i].0 != name
    ensures forall i :: 0 <= i < |FgEntries| ==> FgEntries[i].0 != name
    ensures forall i :: 0 <= i < |BgEntries| ==> BgEntries[i].0 != name
    ensures forall i :: 0 <= i < |BrightFgEntries| ==> BrightFgEntries[i].0 != name
    ensures forall i :: 0 <= i < |BrightBgEntries| ==> BrightBgEntries[i].0 != name
  {
  }

  /** The only two-letter names in the table are the bright acronyms, which
      all begin with 'b'; any other two-letter tag is unknown. */
  lemma TwoLetterNamesAreBright(name: string)
    requires |name| == 2 && name[0] != 'b'
    ensures name !in NameToEffect
  {
    TwoLetterKeys(name);
    TableOfEntry(NameEntries, name);
  }

  /** No name or acronym begins with 'z'. */
  lemma ZKeys()
    ensures forall i :: 0 <= i < |StyleEntries| ==> StyleEntries[i].0 != [] && StyleEntries[i].0[0] != 'z'
    ensures forall i :: 0 <= i < |FgEntries| ==> FgEntries[i].0 != [] && FgEntries[i].0[0] != 'z'
    ensures forall i :: 0 <= i < |BgEntries| ==> BgEntries[i].0 != [] && BgEntries[i].0[0] != 'z'
  {
  }

  lemma ZBrightKeys()
    ensures forall i :: 0 <= i < |BrightFgEntries| ==> BrightFgEntries[i].0 != [] && BrightFgEntries[i].0[0] != 'z'
    ensures forall i :: 0 <= i < |BrightBgEntries| ==> BrightBgEntries[i].0 != [] && BrightBgEntries[i].0[0] != 'z'
  {
  }

  /** So a tag whose name begins with 'z' is unknown. */
  lemma ZNamesAreUnknown(name: string)
    requires |name| >= 1 && name[0] == 'z'
    ensures name !in NameToEffect
  {
    ZKeys();
    ZBrightKeys();
    TableOfEntry(NameEntries, name);
  }

  /** `y` is the acronym of the yellow foreground. */
  lemma YellowIsName(name: string)
    requires name == "y"
    ensures name in NameToEffect
  {
    TableOfEntry(NameEntries, name);
    assert NameEntries[22].0 == name;
  }
}
