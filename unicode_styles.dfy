/** The toolbar's fake text styles: substitution tables that swap each ASCII
    letter for a letter of the Mathematical Alphanumeric Symbols block, and a
    strikethrough that puts a combining long stroke overlay after every code
    unit. A style applies to the selected part of the post buffer and the
    result is spliced back in its place. */
module UnicodeStyles {
  import opened CodeUnits

  /** The style names the toolbar passes; `OtherStyle` is any other name,
      for which the page finds no table and changes nothing. */
  datatype Style = Bold | Italic | Strikethrough | Monospace | OtherStyle

  /** The styles that substitute letters from a table. */
  predicate HasTable(style: Style) {
    style == Bold || style == Italic || style == Monospace
  }

  predicate IsUpper(u: u16) { 0x41 <= u <= 0x5A }
  predicate IsLower(u: u16) { 0x61 <= u <= 0x7A }
  /** The keys of a table: one code unit, `A`-`Z` or `a`-`z`. */
  predicate IsAsciiLetter(u: u16) { IsUpper(u) || IsLower(u) }

  /** The code point a table assigns to `A`; `B`..`Z` follow it, and `a`..`z`
      follow right after `Z`. Sans-serif bold, sans-serif italic, monospace. */
  function UpperBase(style: Style): int
    requires HasTable(style)
  {
    match style
    case Bold => 0x1_D5D4
    case Italic => 0x1_D608
    case Monospace => 0x1_D670
  }

  /** The code point of the glyph that replaces letter `u`. */
  function Glyph(style: Style, u: u16): (cp: int)
    requires HasTable(style) && IsAsciiLetter(u)
    ensures 0x1_D5D4 <= cp <= 0x1_D6A3
  {
    if IsUpper(u) then UpperBase(style) + (u as int - 0x41)
    else UpperBase(style) + 26 + (u as int - 0x61)
  }

  /** No two (style, letter) keys share a glyph: each table is one-to-one
      and the three tables are disjoint. */
  lemma GlyphsDistinct(s1: Style, u1: u16, s2: Style, u2: u16)
    requires HasTable(s1) && IsAsciiLetter(u1) && HasTable(s2) && IsAsciiLetter(u2)
    ensures Glyph(s1, u1) == Glyph(s2, u2) <==> s1 == s2 && u1 == u2
  {
  }

  /** The two code units of a glyph; every glyph lies in U+1D400..U+1D7FF,
      whose high surrogate is 0xD835. */
  lemma GlyphUnits(style: Style, u: u16)
    requires HasTable(style) && IsAsciiLetter(u)
    ensures SurrogatePair(Glyph(style, u)) == [0xD835, (0xDC00 + Glyph(style, u) - 0x1_D400) as u16]
  {
  }

  /** The table lookup for one code unit (src/app/social-formatter/page.jsx:54):
      a letter's glyph, or the unit itself when the table has no entry for it. */
  function MapUnit(style: Style, u: u16): seq<u16>
    requires HasTable(style)
  {
    if IsAsciiLetter(u) then SurrogatePair(Glyph(style, u)) else [u]
  }

  /** A table style (src/app/social-formatter/page.jsx:53-54): the selection's
      code units looked up one by one and the results concatenated. */
  function MapStyle(style: Style, s: seq<u16>): (r: seq<u16>)
    requires HasTable(style)
    ensures |s| <= |r| <= 2 * |s|
    ensures forall i :: 0 <= i < |r| ==> !IsAsciiLetter(r[i])
  {
    if s == [] then []
    else
      var head := MapUnit(style, s[0]);
      assert forall i :: 0 <= i < |head| ==> !IsAsciiLetter(head[i]) by {
        if IsAsciiLetter(s[0]) { GlyphUnits(style, s[0]); }
      }
      head + MapStyle(style, s[1..])
  }

  lemma {:induction false} MapStyleAppend(style: Style, a: seq<u16>, b: seq<u16>)
    requires HasTable(style)
    ensures MapStyle(style, a + b) == MapStyle(style, a) + MapStyle(style, b)
    decreases |a|
  {
    if a == [] {
      assert a + b == b;
    } else {
      assert (a + b)[0] == a[0] && (a + b)[1..] == a[1..] + b;
      MapStyleAppend(style, a[1..], b);
    }
  }

  /** A table style changes a text exactly when the text holds an ASCII letter. */
  lemma {:induction false} MapStyleUnchanged(style: Style, s: seq<u16>)
    requires HasTable(style)
    ensures MapStyle(style, s) == s <==> forall i :: 0 <= i < |s| ==> !IsAsciiLetter(s[i])
    decreases |s|
  {
    if s != [] {
      MapStyleUnchanged(style, s[1..]);
      if IsAsciiLetter(s[0]) {
        GlyphUnits(style, s[0]);
        assert MapStyle(style, s)[0] == 0xD835 != s[0];
      } else {
        assert s == [s[0]] + s[1..];
        if forall i :: 0 <= i < |s| ==> !IsAsciiLetter(s[i]) {
          forall i | 0 <= i < |s[1..]| ensures !IsAsciiLetter(s[1..][i]) {
            assert s[1..][i] == s[i + 1];
          }
        }
      }
    }
  }

  /** Styling already-styled text with any table style changes nothing: the
      glyphs' surrogate halves are not table keys. */
  lemma MapStyleSettled(first: Style, second: Style, s: seq<u16>)
    requires HasTable(first) && HasTable(second)
    ensures MapStyle(second, MapStyle(first, s)) == MapStyle(first, s)
  {
    MapStyleUnchanged(second, MapStyle(first, s));
  }

  // ---------------------------------------------------------------------------
  // Reading styled text back
  // ---------------------------------------------------------------------------

  /** The letter whose glyph in `style` has the low surrogate `low`, if any. */
  function LetterOfLow(style: Style, low: u16): (r: int)
    requires HasTable(style)
    ensures r == -1 || (0 <= r < 0x1_0000 && IsAsciiLetter(r as u16))
  {
    var offset := low as int - 0xDC00 - (UpperBase(style) - 0x1_D400);
    if 0 <= offset < 26 then 0x41 + offset
    else if 26 <= offset < 52 then 0x61 + (offset - 26)
    else -1
  }

  /** The reverse substitution: every glyph pair of `style` becomes its
      letter again, everything else is kept. */
  function Unstyle(style: Style, r: seq<u16>): seq<u16>
    requires HasTable(style)
    decreases |r|, 1
  {
    if r == [] then [] else UnstyleFirst(style, r)
  }

  /** Reading back the first glyph pair or unit of a non-empty `r`. */
  function UnstyleFirst(style: Style, r: seq<u16>): seq<u16>
    requires HasTable(style) && r != []
    decreases |r|, 0
  {
    if |r| >= 2 && r[0] == 0xD835 && LetterOfLow(style, r[1]) >= 0 then
      [LetterOfLow(style, r[1]) as u16] + Unstyle(style, r[2..])
    else [r[0]] + Unstyle(style, r[1..])
  }

  /** A letter's glyph pair reads back as that letter. */
  lemma UnstyleGlyph(style: Style, u: u16, rest: seq<u16>)
    requires HasTable(style) && IsAsciiLetter(u)
    ensures Unstyle(style, MapUnit(style, u) + rest) == [u] + Unstyle(style, rest)
  {
    GlyphUnits(style, u);
    var r := MapUnit(style, u) + rest;
    assert r[0] == 0xD835 && r[1] == MapUnit(style, u)[1] && r[2..] == rest;
    assert LetterOfLow(style, r[1]) == u as int;
  }

  /** Any other unit but 0xD835 reads back as itself. */
  lemma UnstyleOther(style: Style, u: u16, rest: seq<u16>)
    requires HasTable(style) && u != 0xD835
    ensures Unstyle(style, [u] + rest) == [u] + Unstyle(style, rest)
  {
    assert ([u] + rest)[0] == u && ([u] + rest)[1..] == rest;
  }

  /** On text without a 0xD835 unit, styling loses nothing: reading the
      glyphs back gives the original text. */
  lemma {:induction false} UnstyleMapStyle(style: Style, s: seq<u16>)
    requires HasTable(style) && forall i :: 0 <= i < |s| ==> s[i] != 0xD835
    ensures Unstyle(style, MapStyle(style, s)) == s
    decreases |s|
  {
    if s != [] {
      assert forall i :: 0 <= i < |s[1..]| ==> s[1..][i] != 0xD835 by {
        forall i | 0 <= i < |s[1..]| ensures s[1..][i] != 0xD835 { assert s[1..][i] == s[i + 1]; }
      }
      UnstyleMapStyle(style, s[1..]);
      if IsAsciiLetter(s[0]) {
        UnstyleGlyph(style, s[0], MapStyle(style, s[1..]));
      } else {
        UnstyleOther(style, s[0], MapStyle(style, s[1..]));
      }
      assert s == [s[0]] + s[1..];
    }
  }

  // ---------------------------------------------------------------------------
  // Strikethrough
  // ---------------------------------------------------------------------------

  /** U+0336 COMBINING LONG STROKE OVERLAY. */
  const STROKE: u16 := 0x336

  /** Strikethrough (src/app/social-formatter/page.jsx:51-52): U+0336 goes after
      every code unit, including each half of a surrogate pair. */
  function Strike(s: seq<u16>): (r: seq<u16>)
    ensures |r| == 2 * |s|
    ensures forall i :: 0 <= i < |s| ==> r[2 * i] == s[i] && r[2 * i + 1] == STROKE
  {
    if s == [] then []
    else
      var rest := Strike(s[1..]);
      assert forall i :: 1 <= i < |s| ==> ([s[0], STROKE] + rest)[2 * i] == rest[2 * (i - 1)];
      [s[0], STROKE] + rest
  }

  /** The units at even positions: what is left after deleting the marks. */
  function EvenUnits(r: seq<u16>): seq<u16>
    decreases |r|
  {
    if |r| < 2 then r else [r[0]] + EvenUnits(r[2..])
  }

  lemma {:induction false} StrikeRoundTrip(s: seq<u16>)
    ensures EvenUnits(Strike(s)) == s
    decreases |s|
  {
    if s != [] {
      StrikeRoundTrip(s[1..]);
      assert Strike(s)[2..] == Strike(s[1..]);
      assert s == [s[0]] + s[1..];
    }
  }

  // ---------------------------------------------------------------------------
  // applyUnicodeStyle on the buffer
  // ---------------------------------------------------------------------------

  /** The replacement for the selected units. */
  function Styled(style: Style, selected: seq<u16>): seq<u16> {
    match style
    case Strikethrough => Strike(selected)
    case Bold => MapStyle(Bold, selected)
    case Italic => MapStyle(Italic, selected)
    case Monospace => MapStyle(Monospace, selected)
    case OtherStyle => selected
  }

  /** The splice (src/app/social-formatter/page.jsx:56): the text before the
      selection, the styled units, and the text from the selection's end. */
  function Restyled(text: seq<u16>, start: nat, end: nat, style: Style): seq<u16>
    requires start <= end <= |text|
  {
    text[..start] + Styled(style, text[start..end]) + text[end..]
  }

  /** The splice keeps the units before and after the selection, and the new
      selection `[start, start + |styled|)` covers exactly the styled units. */
  lemma RestyledFrame(text: seq<u16>, start: nat, end: nat, style: Style)
    requires start <= end <= |text|
    ensures var r, styled := Restyled(text, start, end, style), Styled(style, text[start..end]);
            |r| == |text| - (end - start) + |styled| &&
            r[..start] == text[..start] &&
            r[start..start + |styled|] == styled &&
            r[start + |styled|..] == text[end..]
  {
    var styled := Styled(style, text[start..end]);
    var r := text[..start] + styled + text[end..];
    assert r[..start] == text[..start];
    assert r[start..start + |styled|] == styled;
    assert r[start + |styled|..] == text[end..];
  }

  /** How long the styled selection is, per style. */
  lemma StyledLength(style: Style, selected: seq<u16>)
    ensures style == Strikethrough ==> |Styled(style, selected)| == 2 * |selected|
    ensures HasTable(style) ==> |selected| <= |Styled(style, selected)| <= 2 * |selected|
    ensures style == OtherStyle ==> Styled(style, selected) == selected
  {
  }

  /** An empty selection leaves the buffer as it was, whatever the style. */
  lemma EmptySelectionUnchanged(text: seq<u16>, at: nat, style: Style)
    requires at <= |text|
    ensures Restyled(text, at, at, style) == text
  {
    assert text[at..at] == [];
    assert Styled(style, []) == [];
    assert text[..at] + [] + text[at..] == text;
  }

  /** An unknown style name leaves the buffer as it was. */
  lemma OtherStyleUnchanged(text: seq<u16>, start: nat, end: nat)
    requires start <= end <= |text|
    ensures Restyled(text, start, end, OtherStyle) == text
  {
    assert text[..start] + text[start..end] + text[end..] == text;
  }

  /** Pressing the same table style again on the selection it reports
      changes nothing. */
  lemma ReapplyUnchanged(text: seq<u16>, start: nat, end: nat, style: Style)
    requires start <= end <= |text| && HasTable(style)
    ensures var r := Restyled(text, start, end, style);
            var newEnd := start + |Styled(style, text[start..end])|;
            newEnd <= |r| && Restyled(r, start, newEnd, style) == r
  {
    var styled := Styled(style, text[start..end]);
    RestyledFrame(text, start, end, style);
    var r := Restyled(text, start, end, style);
    MapStyleSettled(style, style, text[start..end]);
    assert Styled(style, styled) == styled;
    assert r[..start] + r[start..start + |styled|] + r[start + |styled|..] == r;
  }
}
