# QR payloads and social post formatting, modelled in Dafny

This project models the two string engines of a small Next.js utility site.

**The QR code generator** (`src/app/qr-code/page.jsx`):
- The user picks a payload type (text/URL, email, phone, WiFi, event, vCard) and fills in a record of form fields.
- `getQrValue` fills the template of that type with the fields.
- `encodeValue` then applies the selected "encoding" post-pass:
  - UTF-8 leaves the text alone.
  - ANSI deletes every code unit above 0x7F.
  - Cyrillic prefixes `Cyrillic:`.
  - Any other value leaves the text alone.
- The templates only look like `mailto:`, `tel:`, the ZXing `WIFI:` string, an iCalendar VEVENT and a vCard 3.0. They escape nothing, and the model keeps them exactly as written.

**The social post formatter** (`src/app/social-formatter/page.jsx`):
- A textarea buffer `input` with a selection.
- Toolbar actions edit the buffer in place:
  - replace the selection by fake bold, italic or monospace letters from the Mathematical Alphanumeric Symbols block;
  - or replace it by struck-through text (U+0336 after every code unit);
  - insert a `• ` bullet at the start of the caret's line;
  - append ` 😊` at the end.
- The "Format" button fills the preview `formatted` with `formatText(input)`. That is four regular-expression passes deleting paired `**`, `*`, `~~` and `` ` `` delimiters.

Text is modelled as JavaScript sees it: a sequence of UTF-16 code units (`seq<u16>`). Every styled glyph is two units, and strikethrough also puts U+0336 between the two halves of a surrogate pair.

Modules:
- `CodeUnits` (`code_units.dfy`): code units, surrogate pairs, filtering, subsequences and join/split on a separator.
- `QrCode` (`qr_code.dfy`): the fields record, the selector values, the templates, `encodeValue` and `getQrValue`, all as pure functions with lemmas.
- `SocialFormatter` (`social_formatter.dfy`): `formatText`. One pass is `StripPairs`, a recursive function that follows the left-to-right scan of a global lazy `replace`.
- `UnicodeStyles` (`unicode_styles.dfy`): the style tables as base code points, the per-unit map and strike transforms, and the splice of the styled selection.
- `PostEditing` (`post_editor.dfy`): `insertBullet`'s arithmetic, the emoji constant, and the class `PostEditor`. This class holds `input`, `formatted` and the selection, and its methods are the page's actions.

The bullet button also deletes a non-empty selection: `src/app/social-formatter/page.jsx:69-73` builds the new text from the text before the selection and the text after it. `Bulleted` drops the selection, and `BulletPlacement` proves that it does.

## Model

| member | source | states |
|---|---|---|
| CodeUnits.SurrogatePair | src/app/social-formatter/page.jsx:29-38 | a supplementary code point is written as a high then a low surrogate that decode back to it |
| CodeUnits.Filter | src/app/qr-code/page.jsx:110 | a global delete-by-class `replace` keeps at most the input's units, only units of the kept class, and only units from the input |
| CodeUnits.FilterIsSubsequence | src/app/qr-code/page.jsx:110 | the kept units are the input's units in their original order |
| CodeUnits.FilterUnchanged | src/app/qr-code/page.jsx:110 | the delete pass returns the input unchanged exactly when every unit is of the kept class (both directions) |
| CodeUnits.FilterIdempotent | src/app/qr-code/page.jsx:110 | running the delete pass twice gives the same result as running it once |
| CodeUnits.FilterAppend | src/app/qr-code/page.jsx:110 | the delete pass works unit by unit: it distributes over concatenation |
| CodeUnits.Split | src/app/qr-code/page.jsx:132 | splitting on a separator gives pieces free of it that join back to the text |
| CodeUnits.SplitJoin | src/app/qr-code/page.jsx:132 | lines joined with `\n` split back into the same lines when none of them contains `\n` |
| QrCode.EncodeValuePassThrough | src/app/qr-code/page.jsx:106-117 | "UTF-8" and any encoding outside the three options return the value unchanged |
| QrCode.AnsiKeepsAsciiInOrder | src/app/qr-code/page.jsx:108-111 | "ANSI" output holds only units ≤ 0x7F; it is a subsequence of the input; it works unit by unit, keeping a unit exactly when it is ≤ 0x7F |
| QrCode.AnsiIdempotent | src/app/qr-code/page.jsx:108-111 | "ANSI" applied twice equals "ANSI" applied once |
| QrCode.AnsiUnchangedIffAscii | src/app/qr-code/page.jsx:108-111 | "ANSI" returns the input unchanged if and only if every unit is ≤ 0x7F |
| QrCode.CyrillicIsTagged | src/app/qr-code/page.jsx:112-115 | "Cyrillic" output is the 9 units `Cyrillic:` followed by exactly the input |
| QrCode.EncodedOnce | src/app/qr-code/page.jsx:119-141 | the QR value is the type's raw payload passed once through the selected encoding |
| QrCode.InitialPayload | src/app/qr-code/page.jsx:9-27 | with the initial type, fields and encoding, the QR value is the sample URL |
| QrCode.TextPayload | src/app/qr-code/page.jsx:137-138 | type "text" and any type outside the options yield `fields.text` verbatim |
| QrCode.EmailAndPhonePayloads | src/app/qr-code/page.jsx:122-127 | the email payload is `mailto:` then the email field verbatim; the phone payload is `tel:` then the phone field verbatim |
| QrCode.WifiJoined | src/app/qr-code/page.jsx:129 | the WiFi template is the three tagged entries and two empty pieces joined by `;` |
| QrCode.WifiFieldsSplit | src/app/qr-code/page.jsx:128-130 | without `;` in the fields, the WiFi payload splits on `;` into `WIFI:T:`+encryption, `S:`+SSID, `P:`+password and the two empty pieces of `;;` |
| QrCode.WifiSemicolonShift | src/app/qr-code/page.jsx:128-130 | for any texts `x`, `y`, `z`, SSID `x;P:y` with password `z` gives the same payload as SSID `x` with password `y;P:z`: nothing is escaped |
| QrCode.WifiSemicolonIsAmbiguous | src/app/qr-code/page.jsx:128-130 | nothing is escaped: two different SSID/password pairs give the same WiFi payload |
| QrCode.TagsHaveNoSeparators | src/app/qr-code/page.jsx:129-135 | the fixed template pieces contain no `;` (WiFi) and no `\n` (event, vCard) |
| QrCode.EventLines | src/app/qr-code/page.jsx:131-133 | without `\n` in the fields, the event payload is exactly the six lines BEGIN, SUMMARY, LOCATION, DTSTART, DTEND, END in that order; summary and location are verbatim and the dates lose `-` and `:` |
| QrCode.DateTimeDigitsStripsSeparators | src/app/qr-code/page.jsx:132 | the date clean-up works unit by unit (it distributes over concatenation), deletes a single `-` or `:` and keeps any other single unit, so every other unit survives in order; its result has no `-` or `:`, is a subsequence of the input, and equals the input if and only if there was no `-` or `:` |
| QrCode.DateTimeDigitsShape | src/app/qr-code/page.jsx:132 | a `datetime-local` value loses its two `-` and its `:` and keeps every other unit |
| QrCode.DateTimeDigitsSample | src/app/qr-code/page.jsx:132 | `2025-06-01T09:30` becomes `20250601T0930` |
| QrCode.DropSeparator | src/app/qr-code/page.jsx:132 | a `-` or `:` after separator-free text is deleted and the rest is cleaned up |
| QrCode.VCardLines | src/app/qr-code/page.jsx:134-136 | without `\n` in the fields, the vCard payload is exactly the seven lines BEGIN:VCARD, VERSION:3.0, FN, ORG, TEL, EMAIL, END:VCARD, in that order, with the fields verbatim |
| QrCode.VCardSample | src/app/qr-code/page.jsx:134-136 | a concrete vCard splits into its seven lines |
| SocialFormatter.ClosesAtShift | src/app/social-formatter/page.jsx:12-15 | the lazy group can stop one unit later exactly when the first unit is not a line terminator and it can stop at that offset in the rest |
| SocialFormatter.FindCloser | src/app/social-formatter/page.jsx:12-15 | a found closer lies inside the text after the opener |
| SocialFormatter.FindCloserLater | src/app/social-formatter/page.jsx:12-15 | a closer found one unit on lies at offset 1 or more, inside the text |
| SocialFormatter.FindCloserIsLeast | src/app/social-formatter/page.jsx:12-15 | the closer found is at the least offset where `(.*?)` can stop before a closing delimiter; when none is found, no offset works |
| SocialFormatter.NoCloserAfterBreak | src/app/social-formatter/page.jsx:12-15 | `.` does not match a line terminator: a group that starts at one can only be empty |
| SocialFormatter.FindCloserLaterIsLeast | src/app/social-formatter/page.jsx:12-15 | after a unit `.` matches, the least stop is one more than the least stop in the rest, or there is none in either |
| SocialFormatter.PairAt | src/app/social-formatter/page.jsx:12-15 | a pair found at the scan position fits inside the text |
| SocialFormatter.PairAtSplits | src/app/social-formatter/page.jsx:12-15 | a found pair is delimiter, group text with no line terminator, delimiter, rest |
| SocialFormatter.StripPairs | src/app/social-formatter/page.jsx:12-15 | one pass never lengthens the text |
| SocialFormatter.StripAt | src/app/social-formatter/page.jsx:12-15 | one step of the scan never lengthens the text |
| SocialFormatter.PassAtLeastCloser | src/app/social-formatter/page.jsx:12-15 | where the text starts with the delimiter and `k` is the least offset at which `(.*?)` can stop before a closing delimiter, the pass emits the group's `k` units (`$1`) and resumes after the closer |
| SocialFormatter.OpenerWithoutCloserKept | src/app/social-formatter/page.jsx:12-15 | where the text does not start with the delimiter, or `(.*?)` can stop at no offset before a closing delimiter on the same line, the pass keeps the first unit and moves on by one |
| SocialFormatter.StripPairsDeletesMarkers | src/app/social-formatter/page.jsx:12-15 | a pass only deletes units, and only delimiter units |
| SocialFormatter.PairDeletesMarkers | src/app/social-formatter/page.jsx:12-15 | replacing a matched pair by `$1` deletes only the delimiter units, keeping the rest in order |
| SocialFormatter.MatchDeletesMarkers | src/app/social-formatter/page.jsx:12-15 | a step at a match deletes only delimiter units when the rest of the scan does |
| SocialFormatter.CopyDeletesMarkers | src/app/social-formatter/page.jsx:12-15 | a step that copies a unit deletes only delimiter units when the rest of the scan does |
| SocialFormatter.FormatTextDeletesOnlyMarkers | src/app/social-formatter/page.jsx:10-16 | `formatText` deletes only `*`, `~` and `` ` ``; every other unit survives in order; the length never grows |
| SocialFormatter.FormatTextWithoutMarkers | src/app/social-formatter/page.jsx:12-15 | text with no `*`, `~` or `` ` `` is returned unchanged |
| SocialFormatter.FindCloserBeforeLineBreak | src/app/social-formatter/page.jsx:12-15 | a closer search never looks past a line terminator |
| SocialFormatter.ClosesAtBeforeLineBreak | src/app/social-formatter/page.jsx:12-15 | the group can stop at an offset in a line followed by a terminator exactly when it can in the line alone |
| SocialFormatter.OpenerBeforeLineBreak | src/app/social-formatter/page.jsx:12-15 | whether and where a pair matches is decided by the current line alone |
| SocialFormatter.StripPairsByLine | src/app/social-formatter/page.jsx:12-15 | a pass treats the text before and after a line terminator independently |
| SocialFormatter.EmptyLineByLine | src/app/social-formatter/page.jsx:12-15 | a line terminator at the scan position is copied |
| SocialFormatter.MatchCaseByLine | src/app/social-formatter/page.jsx:12-15 | a pair inside the first line is replaced in the same way whatever follows the line |
| SocialFormatter.PairShapeByLine | src/app/social-formatter/page.jsx:12-15 | a pair followed by its rest and then by a line terminator and more text is replaced by its group text, as without the added line |
| SocialFormatter.CopyByLine | src/app/social-formatter/page.jsx:12-15 | a unit copied in the first line is copied whatever follows the line |
| SocialFormatter.FormatTextByLine | src/app/social-formatter/page.jsx:10-16 | `formatText` of two lines is the two lines formatted separately, joined by the same terminator: no pair spans a line break |
| SocialFormatter.SkipPlain | src/app/social-formatter/page.jsx:12-15 | text without the delimiter's first unit passes through a pass untouched |
| SocialFormatter.UnclosedPairAt | src/app/social-formatter/page.jsx:12-15 | an opener with no delimiter unit after it finds no closer |
| SocialFormatter.MatchedPairAt | src/app/social-formatter/page.jsx:12-15 | the lazy group stops at the first closing delimiter |
| SocialFormatter.Unclosed | src/app/social-formatter/page.jsx:12-15 | an opener with no delimiter unit after it on any line is kept |
| SocialFormatter.Matched | src/app/social-formatter/page.jsx:12-15 | a pair around line-terminator-free text without the delimiter unit is replaced by that text |
| SocialFormatter.UnclosedStarSample | src/app/social-formatter/page.jsx:12-15 | `a*b` is unchanged |
| SocialFormatter.SplitPairSample | src/app/social-formatter/page.jsx:12-15 | `*a\nb*` is unchanged: the pair spans a line break |
| SocialFormatter.KeptByAllPasses | src/app/social-formatter/page.jsx:10-16 | plain text followed by one delimiter unit and delimiter-free text is unchanged by all four passes |
| SocialFormatter.PlainPasses | src/app/social-formatter/page.jsx:12-15 | text with no delimiter unit and no line terminator passes any pass unchanged |
| SocialFormatter.SkipLoneStar | src/app/social-formatter/page.jsx:12 | the `**` pass keeps a single `*` followed by plain text |
| SocialFormatter.LoneStarsKept | src/app/social-formatter/page.jsx:12 | the `**` pass keeps the single `*` pair around an italic word |
| SocialFormatter.HintStarStarPass | src/app/social-formatter/page.jsx:12 | the `**` pass strips only the bold pair of the help line's shape |
| SocialFormatter.HintStarPass | src/app/social-formatter/page.jsx:13 | the `*` pass then strips the italic pair |
| SocialFormatter.HintTildePass | src/app/social-formatter/page.jsx:14 | the `~~` pass strips the struck-through pair |
| SocialFormatter.HintBacktickPass | src/app/social-formatter/page.jsx:15 | the `` ` `` pass strips the code pair |
| SocialFormatter.HintStarPasses | src/app/social-formatter/page.jsx:12-13 | the `**` then `*` passes strip the bold and italic pairs of the help line's shape and leave the rest |
| SocialFormatter.HintOtherPasses | src/app/social-formatter/page.jsx:14-15 | the `~~` then `` ` `` passes strip the struck and code pairs |
| SocialFormatter.HintSample | src/app/social-formatter/page.jsx:10-16 | in the page's pass order, `**b**`, `*i*`, `~~g~~` and `` `c` `` with any plain words and separator all lose their delimiters |
| SocialFormatter.HelpLineText | src/app/social-formatter/page.jsx:110 | the help line under the editor, `**bold**`, `*italic*`, `~~strikethrough~~` and `` `monospace` `` separated by a space, U+00A0 and a space, has the delimiter help's shape |
| SocialFormatter.HelpLineSample | src/app/social-formatter/page.jsx:10-16 | `formatText` of that help line is the four words `bold`, `italic`, `strikethrough` and `monospace` with the same gaps between them |
| UnicodeStyles.Glyph | src/app/social-formatter/page.jsx:27-39 | every table glyph lies in U+1D5D4..U+1D6A3 (bold, italic and monospace letters) |
| UnicodeStyles.GlyphsDistinct | src/app/social-formatter/page.jsx:27-39 | two table entries have the same glyph if and only if they are the same style and the same letter |
| UnicodeStyles.GlyphUnits | src/app/social-formatter/page.jsx:29-38 | every glyph is written as the surrogate pair D835 and DC00 plus its offset from U+1D400 |
| UnicodeStyles.MapStyle | src/app/social-formatter/page.jsx:53-54 | mapping a selection with a table at least keeps and at most doubles its length, and leaves no ASCII letter |
| UnicodeStyles.MapStyleAppend | src/app/social-formatter/page.jsx:54 | the map works unit by unit: it distributes over concatenation |
| UnicodeStyles.MapStyleUnchanged | src/app/social-formatter/page.jsx:54 | a map leaves the text unchanged if and only if it has no ASCII letter: digits, punctuation and surrogates pass through |
| UnicodeStyles.MapStyleSettled | src/app/social-formatter/page.jsx:54 | any table map applied after any table map changes nothing |
| UnicodeStyles.LetterOfLow | src/app/social-formatter/page.jsx:29-38 | a low surrogate is read back as an ASCII letter of the style, or as none |
| UnicodeStyles.UnstyleGlyph | src/app/social-formatter/page.jsx:29-38 | a letter's glyph pair reads back as that letter |
| UnicodeStyles.UnstyleOther | src/app/social-formatter/page.jsx:54 | a unit other than 0xD835, passed through by the map, reads back as itself |
| UnicodeStyles.UnstyleMapStyle | src/app/social-formatter/page.jsx:29-54 | reading the glyphs back gives the original selection: the map loses nothing |
| UnicodeStyles.Strike | src/app/social-formatter/page.jsx:51-52 | strikethrough doubles the length; even positions hold the original units in order and odd positions U+0336 |
| UnicodeStyles.StrikeRoundTrip | src/app/social-formatter/page.jsx:51-52 | the even positions of the struck text are the original text |
| UnicodeStyles.RestyledFrame | src/app/social-formatter/page.jsx:49-60 | the text before the selection and after it is unchanged; the styled text sits at `[start, start + styled.length)`; the length changes by the styled text's growth |
| UnicodeStyles.StyledLength | src/app/social-formatter/page.jsx:50-55 | strikethrough gives twice the selection's length, a table style between once and twice, and an unknown style the selection itself |
| UnicodeStyles.EmptySelectionUnchanged | src/app/social-formatter/page.jsx:49-56 | an empty selection changes nothing, whatever the style |
| UnicodeStyles.OtherStyleUnchanged | src/app/social-formatter/page.jsx:50-53 | a style with no table and no strike leaves the text unchanged |
| UnicodeStyles.ReapplyUnchanged | src/app/social-formatter/page.jsx:54-60 | applying a table style again to the selection it returned changes nothing |
| PostEditing.LastIndexOf | src/app/social-formatter/page.jsx:71 | `lastIndexOf` gives a position holding the unit with none after it, or -1 when there is none |
| PostEditing.BulletPlacement | src/app/social-formatter/page.jsx:69-73 | the bullet goes right after the last `\n` before the caret (or at 0); the prefix and the caret's line are kept; the selection is dropped; the text after it follows; the length is `|input| − (end − start) + 2` |
| PostEditing.BulletedShape | src/app/social-formatter/page.jsx:69-73 | the bulleted text is the text up to the line start, the bullet, the line up to the caret, and the text after the selection |
| PostEditing.BulletSample | src/app/social-formatter/page.jsx:69-73 | `hello\nworld` with the caret at 8 gets the bullet at 6 and becomes `hello\n• world` |
| PostEditing.EmojiUnits | src/app/social-formatter/page.jsx:98 | the emoji suffix is the three units 0x20, 0xD83D, 0xDE0A |
| PostEditing.PostEditor.constructor | src/app/social-formatter/page.jsx:6-7 | the buffer and the preview start empty with the caret at 0 |
| PostEditing.PostEditor.Edit | src/app/social-formatter/page.jsx:87 | typing replaces the buffer and the selection and leaves the preview alone |
| PostEditing.PostEditor.Format | src/app/social-formatter/page.jsx:18-20 | the preview becomes `formatText(input)`; the buffer and the selection are unchanged |
| PostEditing.PostEditor.ApplyUnicodeStyle | src/app/social-formatter/page.jsx:45-62 | the buffer becomes the restyled text; the new selection starts at the old start and covers exactly the styled text; the preview is unchanged |
| PostEditing.PostEditor.InsertBullet | src/app/social-formatter/page.jsx:64-79 | the buffer becomes the bulleted text, with the selection dropped; the caret collapses at the old start + 2; the preview is unchanged |
| PostEditing.PostEditor.AppendEmoji | src/app/social-formatter/page.jsx:98 | the buffer gains ` 😊` at its end whatever the selection; the selection and the preview are unchanged |

## Left out

- `handleDownload` (`src/app/qr-code/page.jsx:46-102`) is left out. It is browser I/O: DOM, React root rendering, `setTimeout`, XMLSerializer, canvas, base64 and a link click. Its DPI scaling and `Math.round` sizing are floating point.
- `handleLogoUpload` (`src/app/qr-code/page.jsx:35-43`) is left out. It is asynchronous file reading.
- QR symbol generation is left out. The external `qrcode.react` library does it, and that library is not part of this model.
- The JSX rendering of both pages is left out, as are the `isDark` and `showSettings` state and the size, DPI and logo settings. Field inputs' `onChange` wiring is left out; `PostEditor.Edit` stands for the textarea's.
- The QR preview's `.trim()` guards (`src/app/qr-code/page.jsx:316-323`) are left out. They only decide whether to render, using JavaScript's Unicode whitespace.
- `handleCopy` is left out because it uses the clipboard API.
- The `document.querySelector`, `focus` and `setTimeout` selection restoring is left out. The selection is an explicit pair of fields in `PostEditor`, and the selection the page restores is their new value.
- The browser's caret after the emoji append is left out. The code sets the textarea's value through React (`src/app/social-formatter/page.jsx:98`), and setting a textarea's value moves the browser's caret to the end of the text. `PostEditor.AppendEmoji` keeps the old selection instead, as a modelling choice: the selection it keeps is still inside the longer buffer.
- `src/components/Header.js` is not part of this model. It is a navigation bar with a menu toggle.
- Selector values that are not among the `<option>`s, for type and encoding, are one variant each: `OtherType` and `OtherEncoding`. The code treats every such string alike.
- The WiFi encryption field is a free text field in the record. `WifiEncryption.Value` gives the three values its selector stores.
- UnstyleMapStyle: the round trip is stated only for selections without the unit 0xD835. A selection that already holds a styled glyph is mapped unchanged, so its glyphs cannot be told apart from new ones when read back; `ReapplyUnchanged` and `MapStyleSettled` state what does hold there.
- HintSample: the pass-order example is proved for the help line's shape with plain words. The general interaction of overlapping `*` and `**` pairs is described by the pass equations `PassAtLeastCloser` and `OpenerWithoutCloserKept`, stated against the regular expression's own matching rule `ClosesAt`, not by a closed form.
