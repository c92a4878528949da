/** The QR code generator page: the text payload embedded in the QR symbol,
    built from the selected payload type and the form fields (`getQrValue`),
    followed by the selected "encoding" post-pass (`encodeValue`).
    The payloads are plain templates with no escaping; they follow the shape
    of `mailto:` (RFC 6068), `tel:` (RFC 3966), the ZXing `WIFI:` convention,
    an iCalendar VEVENT (RFC 5545) and a vCard 3.0 (RFC 2426), but no more. */
module QrCode {
  import opened CodeUnits

  /** The form's `fields` record: every input of every payload type, whichever
      type is selected. */
  datatype Fields = Fields(
    text: seq<u16>,
    email: seq<u16>,
    phone: seq<u16>,
    wifiSsid: seq<u16>,
    wifiPassword: seq<u16>,
    wifiEncryption: seq<u16>,
    eventSummary: seq<u16>,
    eventLocation: seq<u16>,
    eventStart: seq<u16>,
    eventEnd: seq<u16>,
    vcardName: seq<u16>,
    vcardPhone: seq<u16>,
    vcardEmail: seq<u16>,
    vcardOrg: seq<u16>)

  /** The value of the "Type" selector: its six options, and any other string
      (handled by the `default` branch of the switch). */
  datatype PayloadType = Text | Email | Phone | Wifi | Event | VCard | OtherType

  /** The value of the "Encoding" selector: its three options, and any other
      string (which `encodeValue` leaves alone). */
  datatype Encoding = Utf8 | Ansi | Cyrillic | OtherEncoding

  /** The options of the WiFi encryption selector and the value each stores
      in `fields.wifi_encryption`. */
  datatype WifiEncryption = Wpa | Wep | NoPass {
    function Value(): seq<u16> {
      match this
      case Wpa => Units("WPA")
      case Wep => Units("WEP")
      case NoPass => Units("nopass")
    }
  }

  /** The record the page starts with: a sample URL and WPA preselected. */
  const INITIAL_FIELDS := Fields(
    Units("https://qr-code.bwanji.digital.com"), [], [], [], [], Wpa.Value(),
    [], [], [], [], [], [], [], [])

  const SEMICOLON: u16 := 0x3B

  predicate IsAscii(u: u16) { u <= 0x7F }

  predicate IsNotDateSeparator(u: u16) { u != 0x2D && u != 0x3A }

  /** The "ANSI" pass (src/app/qr-code/page.jsx:110): every code unit above
      0x7F is deleted and the rest kept in order. */
  function AsciiOnly(value: seq<u16>): seq<u16> {
    Filter(IsAscii, value)
  }

  /** The date clean-up (src/app/qr-code/page.jsx:132): every `-` and `:` is
      deleted, so a `datetime-local` value such as 2025-06-01T09:30 becomes
      the compact form 20250601T0930. */
  function DateTimeDigits(value: seq<u16>): seq<u16> {
    Filter(IsNotDateSeparator, value)
  }

  /** `encodeValue`: the post-pass applied to the payload. */
  function EncodeValue(encoding: Encoding, value: seq<u16>): seq<u16> {
    match encoding
    case Utf8 => value
    case Ansi => AsciiOnly(value)
    case Cyrillic => CYRILLIC_TAG + value
    case OtherEncoding => value
  }

  // The fixed pieces of the payload templates.
  const MAILTO := Units("mailto:")
  const TEL := Units("tel:")
  const WIFI_T := Units("WIFI:T:")
  const WIFI_S := Units("S:")
  const WIFI_P := Units("P:")
  const BEGIN_VEVENT := Units("BEGIN:VEVENT")
  const SUMMARY := Units("SUMMARY:")
  const LOCATION := Units("LOCATION:")
  const DTSTART := Units("DTSTART:")
  const DTEND := Units("DTEND:")
  const END_VEVENT := Units("END:VEVENT")
  const BEGIN_VCARD := Units("BEGIN:VCARD")
  const VERSION_3 := Units("VERSION:3.0")
  const FN := Units("FN:")
  const ORG := Units("ORG:")
  const VCARD_TEL := Units("TEL:")
  const VCARD_EMAIL := Units("EMAIL:")
  const END_VCARD := Units("END:VCARD")
  const CYRILLIC_TAG := Units("Cyrillic:")

  /** The `rawValue` that the switch in `getQrValue` assigns: the template of
      the selected type, with the fields inserted as they are. */
  function RawValue(kind: PayloadType, f: Fields): seq<u16> {
    match kind
    case Email => MAILTO + f.email
    case Phone => TEL + f.phone
    case Wifi => WifiPayload(f)
    case Event => EventPayload(f)
    case VCard => VCardPayload(f)
    case Text => f.text
    case OtherType => f.text
  }

  /** The WiFi template (src/app/qr-code/page.jsx:129): the encryption, SSID
      and password after their tags, each entry closed by `;`, and one more
      `;` at the end. */
  function WifiPayload(f: Fields): seq<u16> {
    WIFI_T + f.wifiEncryption + [SEMICOLON] + WIFI_S + f.wifiSsid + [SEMICOLON] + WIFI_P + f.wifiPassword
    + [SEMICOLON, SEMICOLON]
  }

  /** The six VEVENT lines; only the two dates are cleaned up. */
  function EventPayload(f: Fields): seq<u16> {
    Join(LF, [
      BEGIN_VEVENT,
      SUMMARY + f.eventSummary,
      LOCATION + f.eventLocation,
      DTSTART + DateTimeDigits(f.eventStart),
      DTEND + DateTimeDigits(f.eventEnd),
      END_VEVENT])
  }

  /** The seven vCard 3.0 lines. */
  function VCardPayload(f: Fields): seq<u16> {
    Join(LF, [
      BEGIN_VCARD,
      VERSION_3,
      FN + f.vcardName,
      ORG + f.vcardOrg,
      VCARD_TEL + f.vcardPhone,
      VCARD_EMAIL + f.vcardEmail,
      END_VCARD])
  }

  /** `getQrValue`: the string handed to the QR renderer. */
  function GetQrValue(kind: PayloadType, encoding: Encoding, f: Fields): seq<u16> {
    EncodeValue(encoding, RawValue(kind, f))
  }

  // ---------------------------------------------------------------------------
  // The encoding post-pass
  // ---------------------------------------------------------------------------

  /** "UTF-8", and any value outside the selector's options, change nothing. */
  lemma EncodeValuePassThrough(value: seq<u16>)
    ensures EncodeValue(Utf8, value) == value
    ensures EncodeValue(OtherEncoding, value) == value
  {
  }

  /** "ANSI" keeps exactly the ASCII units, in order: its result is ASCII, is
      obtained from the input by deletions only, and works unit by unit. */
  lemma AnsiKeepsAsciiInOrder(a: seq<u16>, b: seq<u16>)
    ensures forall i :: 0 <= i < |EncodeValue(Ansi, a)| ==> EncodeValue(Ansi, a)[i] <= 0x7F
    ensures IsSubsequence(EncodeValue(Ansi, a), a)
    ensures EncodeValue(Ansi, a + b) == EncodeValue(Ansi, a) + EncodeValue(Ansi, b)
    ensures forall u: u16 :: EncodeValue(Ansi, [u]) == if u <= 0x7F then [u] else []
  {
    FilterIsSubsequence(IsAscii, a);
    FilterAppend(IsAscii, a, b);
  }

  /** Applying "ANSI" twice is the same as applying it once. */
  lemma AnsiIdempotent(value: seq<u16>)
    ensures EncodeValue(Ansi, EncodeValue(Ansi, value)) == EncodeValue(Ansi, value)
  {
    FilterIdempotent(IsAscii, value);
  }

  /** "ANSI" leaves a value unchanged exactly when it is all ASCII. */
  lemma AnsiUnchangedIffAscii(value: seq<u16>)
    ensures EncodeValue(Ansi, value) == value <==> forall i :: 0 <= i < |value| ==> value[i] <= 0x7F
  {
    FilterUnchanged(IsAscii, value);
  }

  /** "Cyrillic" only tags the value: the tag, then the value itself. */
  lemma CyrillicIsTagged(value: seq<u16>)
    ensures |EncodeValue(Cyrillic, value)| == 9 + |value|
    ensures EncodeValue(Cyrillic, value)[..9] == Units("Cyrillic:")
    ensures EncodeValue(Cyrillic, value)[9..] == value
  {
  }

  /** The post-pass runs once, on the finished payload. */
  lemma EncodedOnce(kind: PayloadType, f: Fields)
    ensures GetQrValue(kind, Utf8, f) == RawValue(kind, f)
    ensures GetQrValue(kind, Cyrillic, f) == Units("Cyrillic:") + RawValue(kind, f)
    ensures GetQrValue(kind, Ansi, f) == AsciiOnly(RawValue(kind, f))
  {
  }

  // ---------------------------------------------------------------------------
  // Payload templates
  // ---------------------------------------------------------------------------

  /** The page's initial state (type "text", encoding "UTF-8") encodes the
      sample URL as it is. */
  lemma InitialPayload()
    ensures GetQrValue(Text, Utf8, INITIAL_FIELDS) == Units("https://qr-code.bwanji.digital.com")
  {
  }

  /** "text" and any unlisted type give the text field, verbatim. */
  lemma TextPayload(f: Fields)
    ensures RawValue(Text, f) == f.text
    ensures RawValue(OtherType, f) == f.text
  {
  }

  /** The email and phone payloads are the scheme followed by the unvalidated
      field, which can be read back from the payload. */
  lemma EmailAndPhonePayloads(f: Fields)
    ensures RawValue(Email, f)[..7] == Units("mailto:") && RawValue(Email, f)[7..] == f.email
    ensures RawValue(Phone, f)[..4] == Units("tel:") && RawValue(Phone, f)[4..] == f.phone
  {
  }

  /** When no WiFi field contains `;`, the payload splits on `;` into the
      encryption, SSID and password entries followed by the two empty pieces
      of the closing `;;`. */
  lemma WifiFieldsSplit(f: Fields)
    requires SEMICOLON !in f.wifiEncryption && SEMICOLON !in f.wifiSsid && SEMICOLON !in f.wifiPassword
    ensures Split(SEMICOLON, RawValue(Wifi, f))
         == [WIFI_T + f.wifiEncryption, WIFI_S + f.wifiSsid, WIFI_P + f.wifiPassword, [], []]
  {
    var parts := [WIFI_T + f.wifiEncryption, WIFI_S + f.wifiSsid, WIFI_P + f.wifiPassword, [], []];
    WifiJoined(f);
    TagsHaveNoSeparators();
    assert forall i :: 0 <= i < |parts| ==> SEMICOLON !in parts[i];
    SplitJoin(SEMICOLON, parts);
  }

  /** The WiFi template is its three entries and two empty pieces joined by `;`. */
  lemma WifiJoined(f: Fields)
    ensures WifiPayload(f)
         == Join(SEMICOLON, [WIFI_T + f.wifiEncryption, WIFI_S + f.wifiSsid, WIFI_P + f.wifiPassword, [], []])
  {
    var parts := [WIFI_T + f.wifiEncryption, WIFI_S + f.wifiSsid, WIFI_P + f.wifiPassword, [], []];
    assert Join(SEMICOLON, parts[4..]) == [];
    assert Join(SEMICOLON, parts[3..]) == [SEMICOLON];
    assert Join(SEMICOLON, parts[2..]) == parts[2] + [SEMICOLON] + [SEMICOLON];
    assert Join(SEMICOLON, parts[1..]) == parts[1] + [SEMICOLON] + Join(SEMICOLON, parts[2..]);
    assert Join(SEMICOLON, parts) == parts[0] + [SEMICOLON] + Join(SEMICOLON, parts[1..]);
  }

  /** Nothing is escaped: moving `;P:` and the text after it from the end of
      the SSID to the start of the password leaves the payload as it was. */
  lemma WifiSemicolonShift(f: Fields, x: seq<u16>, y: seq<u16>, z: seq<u16>)
    ensures RawValue(Wifi, f.(wifiSsid := x + [SEMICOLON] + WIFI_P + y, wifiPassword := z))
         == RawValue(Wifi, f.(wifiSsid := x, wifiPassword := y + [SEMICOLON] + WIFI_P + z))
  {
  }

  /** So two different networks can produce the same payload. */
  lemma WifiSemicolonIsAmbiguous()
    ensures var f1 := INITIAL_FIELDS.(wifiSsid := Units("a;P:b"), wifiPassword := Units("c"));
            var f2 := INITIAL_FIELDS.(wifiSsid := Units("a"), wifiPassword := Units("b;P:c"));
            f1 != f2 && RawValue(Wifi, f1) == RawValue(Wifi, f2)
  {
    SemicolonPieces();
    WifiSemicolonShift(INITIAL_FIELDS, Units("a"), Units("b"), Units("c"));
  }

  lemma SemicolonPieces()
    ensures Units("a;P:b") == Units("a") + [SEMICOLON] + WIFI_P + Units("b")
    ensures Units("b;P:c") == Units("b") + [SEMICOLON] + WIFI_P + Units("c")
  {
  }

  lemma TagsHaveNoSeparators()
    ensures SEMICOLON !in WIFI_T && SEMICOLON !in WIFI_S && SEMICOLON !in WIFI_P
    ensures LF !in BEGIN_VEVENT && LF !in SUMMARY && LF !in LOCATION
    ensures LF !in DTSTART && LF !in DTEND && LF !in END_VEVENT
    ensures LF !in BEGIN_VCARD && LF !in VERSION_3 && LF !in FN && LF !in ORG
    ensures LF !in VCARD_TEL && LF !in VCARD_EMAIL && LF !in END_VCARD
  {
  }

  /** When no event field contains a line feed, the event payload is exactly
      six lines, in this order; summary and location are verbatim, and only
      the two dates lose their `-` and `:`. */
  lemma EventLines(f: Fields)
    requires LF !in f.eventSummary && LF !in f.eventLocation && LF !in f.eventStart && LF !in f.eventEnd
    ensures Split(LF, RawValue(Event, f)) == [
              BEGIN_VEVENT,
              SUMMARY + f.eventSummary,
              LOCATION + f.eventLocation,
              DTSTART + DateTimeDigits(f.eventStart),
              DTEND + DateTimeDigits(f.eventEnd),
              END_VEVENT]
  {
    TagsHaveNoSeparators();
    SplitJoin(LF, [
      BEGIN_VEVENT,
      SUMMARY + f.eventSummary,
      LOCATION + f.eventLocation,
      DTSTART + DateTimeDigits(f.eventStart),
      DTEND + DateTimeDigits(f.eventEnd),
      END_VEVENT]);
  }

  /** The DTSTART and DTEND values carry no `-` or `:` and are what remains of
      the field after deleting them: the clean-up works unit by unit, drops
      exactly the two separators, and keeps a value without them as it is. */
  lemma DateTimeDigitsStripsSeparators(a: seq<u16>, b: seq<u16>)
    ensures forall i :: 0 <= i < |DateTimeDigits(a)| ==> DateTimeDigits(a)[i] != 0x2D && DateTimeDigits(a)[i] != 0x3A
    ensures IsSubsequence(DateTimeDigits(a), a)
    ensures DateTimeDigits(a) == a <==> 0x2D !in a && 0x3A !in a
    ensures DateTimeDigits(a + b) == DateTimeDigits(a) + DateTimeDigits(b)
    ensures forall u: u16 :: DateTimeDigits([u]) == if u == 0x2D || u == 0x3A then [] else [u]
  {
    FilterIsSubsequence(IsNotDateSeparator, a);
    FilterUnchanged(IsNotDateSeparator, a);
    FilterAppend(IsNotDateSeparator, a, b);
  }

  /** A `datetime-local` value, date-date-dateThour:minute, loses its two
      dashes and its colon and nothing else. */
  lemma DateTimeDigitsShape(year: seq<u16>, month: seq<u16>, dayHour: seq<u16>, minute: seq<u16>)
    requires 0x2D !in year && 0x3A !in year && 0x2D !in month && 0x3A !in month
    requires 0x2D !in dayHour && 0x3A !in dayHour && 0x2D !in minute && 0x3A !in minute
    ensures DateTimeDigits(year + [0x2D] + month + [0x2D] + dayHour + [0x3A] + minute)
         == year + month + dayHour + minute
  {
    assert year + [0x2D] + month + [0x2D] + dayHour + [0x3A] + minute
        == year + ([0x2D] + (month + ([0x2D] + (dayHour + ([0x3A] + minute)))));
    DropSeparator(dayHour, 0x3A, minute);
    DropSeparator(month, 0x2D, dayHour + ([0x3A] + minute));
    DropSeparator(year, 0x2D, month + ([0x2D] + (dayHour + ([0x3A] + minute))));
    FilterUnchanged(IsNotDateSeparator, minute);
  }

  /** 2025-06-01T09:30 becomes 20250601T0930. */
  lemma DateTimeDigitsSample()
    ensures DateTimeDigits(Units("2025-06-01T09:30")) == Units("20250601T0930")
  {
    DateTimePieces();
    DateTimeDigitsShape(Units("2025"), Units("06"), Units("01T09"), Units("30"));
  }

  lemma DateTimePieces()
    ensures Units("2025-06-01T09:30") == Units("2025") + [0x2D] + Units("06") + [0x2D] + Units("01T09") + [0x3A] + Units("30")
    ensures Units("20250601T0930") == Units("2025") + Units("06") + Units("01T09") + Units("30")
  {
  }

  lemma DropSeparator(a: seq<u16>, sep: u16, b: seq<u16>)
    requires !IsNotDateSeparator(sep) && 0x2D !in a && 0x3A !in a
    ensures DateTimeDigits(a + ([sep] + b)) == a + DateTimeDigits(b)
  {
    FilterAppend(IsNotDateSeparator, a, [sep] + b);
    FilterUnchanged(IsNotDateSeparator, a);
    assert ([sep] + b)[1..] == b;
  }

  /** When no contact field contains a line feed, the vCard payload is exactly
      seven lines, in this fixed order: BEGIN, VERSION, FN, ORG, TEL, EMAIL, END. */
  lemma VCardLines(f: Fields)
    requires LF !in f.vcardName && LF !in f.vcardOrg && LF !in f.vcardPhone && LF !in f.vcardEmail
    ensures Split(LF, RawValue(VCard, f)) == [
              BEGIN_VCARD,
              VERSION_3,
              FN + f.vcardName,
              ORG + f.vcardOrg,
              VCARD_TEL + f.vcardPhone,
              VCARD_EMAIL + f.vcardEmail,
              END_VCARD]
  {
    TagsHaveNoSeparators();
    SplitJoin(LF, [
      BEGIN_VCARD,
      VERSION_3,
      FN + f.vcardName,
      ORG + f.vcardOrg,
      VCARD_TEL + f.vcardPhone,
      VCARD_EMAIL + f.vcardEmail,
      END_VCARD]);
  }

  /** A sample contact card: its payload, line by line. */
  lemma VCardSample()
    ensures Split(LF, RawValue(VCard, INITIAL_FIELDS.(vcardName := Units("Jo"), vcardPhone := Units("1"),
                                                      vcardEmail := Units("a@b"), vcardOrg := Units("X"))))
         == [Units("BEGIN:VCARD"), Units("VERSION:3.0"), Units("FN:Jo"), Units("ORG:X"),
             Units("TEL:1"), Units("EMAIL:a@b"), Units("END:VCARD")]
  {
    VCardLines(INITIAL_FIELDS.(vcardName := Units("Jo"), vcardPhone := Units("1"),
                               vcardEmail := Units("a@b"), vcardOrg := Units("X")));
    VCardPieces();
  }

  lemma VCardPieces()
    ensures FN + Units("Jo") == Units("FN:Jo") && ORG + Units("X") == Units("ORG:X")
    ensures VCARD_TEL + Units("1") == Units("TEL:1") && VCARD_EMAIL + Units("a@b") == Units("EMAIL:a@b")
  {
  }
}
