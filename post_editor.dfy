/** The post buffer behind the formatter page's textarea and the toolbar
    actions that edit it in place: a style over the selection, a bullet at
    the start of the caret's line, an emoji at the end; and the "Format"
    button that fills the preview. */
module PostEditing {
  import opened CodeUnits
  import opened SocialFormatter
  import opened UnicodeStyles

  // ---------------------------------------------------------------------------
  // insertBullet
  // ---------------------------------------------------------------------------

  /** `s.lastIndexOf(u)` for a one-unit needle: the last position holding
      `u`, or -1. */
  function LastIndexOf(s: seq<u16>, u: u16): (r: int)
    ensures -1 <= r < |s|
    ensures r >= 0 ==> s[r] == u
    ensures forall j :: r < j < |s| ==> s[j] != u
    decreases |s|
  {
    if s == [] then -1
    else if s[|s| - 1] == u then |s| - 1
    else LastIndexOf(s[..|s| - 1], u)
  }

  /** The marker the bullet button inserts: U+2022 BULLET and a space. */
  const BULLET: seq<u16> := [0x2022, SPACE]

  /** Where the bullet goes: one past the last line feed before the caret,
      or 0 on the first line. Only `\n` counts, not `\r`. */
  function LineStart(text: seq<u16>, start: nat): nat
    requires start <= |text|
  {
    LastIndexOf(text[..start], LF) + 1
  }

  /** The bulleted text (src/app/social-formatter/page.jsx:73): the text up to
      the selection with the marker inserted at the line start, then the text
      from the selection's end; the selected units themselves are not kept. */
  function Bulleted(text: seq<u16>, start: nat, end: nat): seq<u16>
    requires start <= end <= |text|
  {
    var before, after := text[..start], text[end..];
    var insertPos := LineStart(text, start);
    before[..insertPos] + BULLET + before[insertPos..] + after
  }

  /** The bullet goes at the start of the caret's line (just after a line
      feed, with none between it and the caret), the selection is dropped,
      and everything else keeps its place; deleting the two marker units
      gives back the text without the selection. */
  lemma BulletPlacement(text: seq<u16>, start: nat, end: nat)
    requires start <= end <= |text|
    ensures var p, r := LineStart(text, start), Bulleted(text, start, end);
            p <= start &&
            (p == 0 || text[p - 1] == LF) &&
            (forall j :: p <= j < start ==> text[j] != LF) &&
            |r| == |text| - (end - start) + 2 &&
            r[..p] == text[..p] &&
            r[p..p + 2] == BULLET &&
            r[p + 2..start + 2] == text[p..start] &&
            r[start + 2..] == text[end..] &&
            r[..p] + r[p + 2..] == text[..start] + text[end..]
  {
    var p := LineStart(text, start);
    BulletedShape(text, start, end);
    SpliceParts(text[..p], BULLET, text[p..start], text[end..]);
    assert text[..start] == text[..p] + text[p..start];
  }

  lemma BulletedShape(text: seq<u16>, start: nat, end: nat)
    requires start <= end <= |text|
    ensures LineStart(text, start) <= start
    ensures Bulleted(text, start, end) ==
            text[..LineStart(text, start)] + BULLET + text[LineStart(text, start)..start] + text[end..]
  {
    var p := LineStart(text, start);
    var before := text[..start];
    assert before[..p] == text[..p] && before[p..] == text[p..start];
  }

  /** Where the pieces of `a + m + c + e` are, for a two-unit `m`. */
  lemma SpliceParts(a: seq<u16>, m: seq<u16>, c: seq<u16>, e: seq<u16>)
    requires |m| == 2
    ensures var r, n := a + m + c + e, |a|;
            |r| == |a| + 2 + |c| + |e| && r[..n] == a && r[n..n + 2] == m &&
            r[n + 2..n + 2 + |c|] == c && r[n + 2 + |c|..] == e && r[..n] + r[n + 2..] == a + c + e
  {
    var r, n := a + m + c + e, |a|;
    assert r[n + 2..] == c + e;
  }

  const HELLO_WORLD: seq<u16> := Units("hello\nworld")

  /** The caret in "hello\nworld" at 8 is on the second line: the bullet goes
      at 6 and the caret moves to 10. */
  lemma BulletSample()
    ensures LineStart(HELLO_WORLD, 8) == 6
    ensures Bulleted(HELLO_WORLD, 8, 8) == Units("hello\n") + BULLET + Units("world")
  {
    var before := HELLO_WORLD[..8];
    assert before[5] == LF && before[6] != LF && before[7] != LF;
    assert before[..6] == Units("hello\n");
    assert before[6..] + HELLO_WORLD[8..] == Units("world");
  }

  // ---------------------------------------------------------------------------
  // The emoji button
  // ---------------------------------------------------------------------------

  /** `" 😊"`: a space and U+1F60A as a surrogate pair. */
  const EMOJI: seq<u16> := [SPACE] + SurrogatePair(0x1_F60A)

  lemma EmojiUnits()
    ensures EMOJI == [0x20, 0xD83D, 0xDE0A]
  {
  }

  // ---------------------------------------------------------------------------
  // The page's state
  // ---------------------------------------------------------------------------

  /** The textarea buffer `input`, its selection and the preview `formatted`. */
  class PostEditor {
    var input: seq<u16>
    var formatted: seq<u16>
    var selStart: nat
    var selEnd: nat

    /** A selection lies inside the buffer. */
    predicate Valid()
      reads this
    {
      selStart <= selEnd <= |input|
    }

    constructor()
      ensures input == [] && formatted == [] && selStart == 0 && selEnd == 0
      ensures Valid()
    {
      input, formatted := [], [];
      selStart, selEnd := 0, 0;
    }

    /** The textarea's `onChange` and the user's selecting: the browser
        reports the new buffer and selection. */
    method Edit(text: seq<u16>, start: nat, end: nat)
      requires start <= end <= |text|
      modifies this
      ensures input == text && selStart == start && selEnd == end
      ensures formatted == old(formatted)
      ensures Valid()
    {
      input := text;
      selStart, selEnd := start, end;
    }

    /** `handleFormat`: the preview becomes `formatText(input)`. */
    method Format()
      modifies this
      ensures formatted == FormatText(input)
      ensures input == old(input) && selStart == old(selStart) && selEnd == old(selEnd)
    {
      formatted := FormatText(input);
    }

    /** `applyUnicodeStyle(style)`: the selection is replaced by its styled
        form and then selected. */
    method ApplyUnicodeStyle(style: Style)
      requires Valid()
      modifies this
      ensures input == Restyled(old(input), old(selStart), old(selEnd), style)
      ensures selStart == old(selStart)
      ensures selEnd == old(selStart) + |Styled(style, old(input)[old(selStart)..old(selEnd)])|
      ensures formatted == old(formatted)
      ensures Valid()
    {
      var start, end := selStart, selEnd;
      var selected := input[start..end];
      var styled := Styled(style, selected);
      RestyledFrame(input, start, end, style);
      input := input[..start] + styled + input[end..];
      selEnd := start + |styled|;
    }

    /** `insertBullet()`: the marker goes at the start of the caret's line and
        the caret collapses two units after the old selection start. */
    method InsertBullet()
      requires Valid()
      modifies this
      ensures input == Bulleted(old(input), old(selStart), old(selEnd))
      ensures selStart == selEnd == old(selStart) + 2
      ensures formatted == old(formatted)
      ensures Valid()
    {
      var start, end := selStart, selEnd;
      var before, after := input[..start], input[end..];
      var lastNewline := LastIndexOf(before, LF);
      var insertPos := lastNewline + 1;
      BulletPlacement(input, start, end);
      input := before[..insertPos] + BULLET + before[insertPos..] + after;
      selStart, selEnd := start + 2, start + 2;
    }

    /** The emoji button (src/app/social-formatter/page.jsx:98): the emoji suffix
        goes at the end of the buffer, wherever the caret is. */
    method AppendEmoji()
      requires Valid()
      modifies this
      ensures input == old(input) + EMOJI
      ensures selStart == old(selStart) && selEnd == old(selEnd) && formatted == old(formatted)
      ensures Valid()
    {
      input := input + EMOJI;
    }
  }
}
