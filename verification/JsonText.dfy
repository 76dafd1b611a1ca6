/** The text level of the benchmark history: escaping, quoted strings, field search, numbers
    and the scan for array items. The readers walk the UTF-8 bytes of a line and take each byte
    for a character; what they look for is ASCII, so only string contents notice. */
module JsonText {
  import opened Wrappers
  import opened TextLines
  import opened Decimals

  /** Why reading fails. On a character cut in two the source does not fail but panics. */
  datatype ReadError = MissingField(field: string) | NotAnArray(field: string) | UnsupportedVersion | CutCharacter

  const QUOTE := '"'
  const BACKSLASH := '\\'

  /** `char::is_control`: the Unicode category Cc. */
  predicate IsControl(c: char) {
    c as int < 0x20 || 0x7F <= c as int < 0xA0
  }

  /** The UTF-8 bytes of a character (section 3 of RFC 3629), each taken for a character. */
  function BytesOf(c: char): (r: string)
    ensures c as int < 128 ==> r == [c]
    ensures c as int >= 128 ==> |r| >= 2
  {
    var n := c as int;
    if n < 0x80 then [c]
    else if n < 0x800 then [(0xC0 + n / 0x40) as char, (0x80 + n % 0x40) as char]
    else if n < 0x1_0000 then [(0xE0 + n / 0x1000) as char, (0x80 + n / 0x40 % 0x40) as char, (0x80 + n % 0x40) as char]
    else
      [(0xF0 + n / 0x4_0000) as char, (0x80 + n / 0x1000 % 0x40) as char, (0x80 + n / 0x40 % 0x40) as char,
       (0x80 + n % 0x40) as char]
  }

  /** How many characters make up the next bytes of a text, or the whole text if it has fewer;
      none when these bytes end inside a character. */
  function Window(s: string, bytes: nat): (n: Option<nat>)
    ensures n.Some? ==> n.value <= |s|
  {
    if s == [] || bytes == 0 then Some(0)
    else if |BytesOf(s[0])| > bytes then None
    else
      match Window(s[1..], bytes - |BytesOf(s[0])|)
      case Some(n) => Some(n + 1)
      case None => None
  }

  function ByteLength(s: string): nat {
    if s == [] then 0 else |BytesOf(s[0])| + ByteLength(s[1..])
  }

  /** A window ends inside a character exactly when the text is longer and no prefix of it has that
      many bytes. */
  lemma {:induction false} WindowExactly(s: string, bytes: nat)
    ensures Window(s, bytes).Some? <==>
        ByteLength(s) <= bytes || exists k :: 0 <= k <= |s| && ByteLength(s[..k]) == bytes
    ensures Window(s, bytes).Some? ==>
        ByteLength(s[..Window(s, bytes).value]) == if ByteLength(s) <= bytes then ByteLength(s) else bytes
  {
    hide BytesOf;
    assert s[..0] == [];
    if s != [] && bytes > 0 {
      var size := |BytesOf(s[0])|;
      forall k | 0 < k <= |s|
        ensures ByteLength(s[..k]) == size + ByteLength(s[1..][..k - 1])
      {
        assert s[..k][1..] == s[1..][..k - 1];
      }
      if size <= bytes {
        WindowExactly(s[1..], bytes - size);
        if k :| 0 <= k <= |s[1..]| && ByteLength(s[1..][..k]) == bytes - size {
          assert ByteLength(s[..k + 1]) == bytes;
        }
      }
    }
  }

  predicate IsAsciiWhitespace(c: char) {
    c == ' ' || c == '\t' || c == '\n' || c == '\r' || c as int == 0x0C
  }

  // ---------------------------------------------------------------- escaping

  function HexDigit(n: nat): (c: char)
    requires n < 16
    ensures '0' <= c <= '9' || 'a' <= c <= 'f'
  {
    if n < 10 then ('0' as int + n) as char else ('a' as int + n - 10) as char
  }

  /** `{:04x}` of a code below 2^16. */
  function Hex4(code: nat): (r: string)
    requires code < 0x1_0000
    ensures |r| == 4
  {
    [HexDigit(code / 0x1000), HexDigit(code / 0x100 % 16), HexDigit(code / 16 % 16), HexDigit(code % 16)]
  }

  function EscapeChar(c: char): (r: string)
    ensures r != []
  {
    if c == QUOTE then [BACKSLASH, QUOTE]
    else if c == BACKSLASH then [BACKSLASH, BACKSLASH]
    else if c == '\n' then [BACKSLASH, 'n']
    else if c == '\r' then [BACKSLASH, 'r']
    else if c == '\t' then [BACKSLASH, 't']
    else if IsControl(c) then [BACKSLASH, 'u'] + Hex4(c as int)
    else [c]
  }

  function Escape(s: string): string {
    if s == [] then [] else EscapeChar(s[0]) + Escape(s[1..])
  }

  lemma {:induction false} EscapeLast(s: string, c: char)
    ensures Escape(s + [c]) == Escape(s) + EscapeChar(c)
  {
    if s == [] {
      assert [c][1..] == [];
    } else {
      assert (s + [c])[1..] == s[1..] + [c];
      EscapeLast(s[1..], c);
    }
  }

  /** `json_escape`. */
  method JsonEscape(s: string) returns (result: string)
    ensures result == Escape(s)
  {
    hide EscapeChar;
    result := [];
    for i := 0 to |s|
      invariant result == Escape(s[..i])
    {
      assert s[..i + 1] == s[..i] + [s[i]];
      EscapeLast(s[..i], s[i]);
      result := result + EscapeChar(s[i]);
    }
    assert s[..|s|] == s;
  }

  // ---------------------------------------------------------------- quoted strings

  function HexValue(c: char): Option<nat> {
    if '0' <= c <= '9' then Some(c as int - '0' as int)
    else if 'a' <= c <= 'f' then Some(c as int - 'a' as int + 10)
    else if 'A' <= c <= 'F' then Some(c as int - 'A' as int + 10)
    else None
  }

  function HexNumber(digits: string): Option<nat> {
    if digits == [] then Some(0)
    else
      match (HexNumber(digits[..|digits| - 1]), HexValue(digits[|digits| - 1]))
      case (Some(high), Some(low)) => Some(16 * high + low)
      case _ => None
  }

  /** `u32::from_str_radix(text, 16)` on at most four characters: a plus sign may lead. */
  function FromHex(text: string): Option<nat> {
    var digits := if |text| > 1 && text[0] == '+' then text[1..] else text;
    if digits == [] then None else HexNumber(digits)
  }

  /** `char::from_u32`, as the text to append: nothing for a code that is no scalar value. */
  function ScalarText(code: Option<nat>): string {
    match code
    case Some(n) => if n < 0xD800 || 0xE000 <= n < 0x11_0000 then [n as char] else []
    case None => []
  }

  function SimpleEscape(c: char): (r: string)
    ensures r != []
  {
    if c == 'n' then ['\n'] else if c == 'r' then ['\r'] else if c == 't' then ['\t'] else BytesOf(c)
  }

  /** The value of a quoted string, read from behind its opening quote: `done` has been read,
      and the last character was a backslash when `escaped`. None when the four bytes after
      `\u` end inside a character, where the source panics. */
  function StringFrom(rest: string, escaped: bool, done: string): Option<string>
    decreases |rest|
  {
    if rest == [] then Some(done)
    else if escaped then
      if rest[0] == 'u' then
        match Window(rest[1..], 4)
        case None => None
        case Some(n) => StringFrom(rest[1 + n..], false, done + ScalarText(FromHex(rest[1..1 + n])))
      else StringFrom(rest[1..], false, done + SimpleEscape(rest[0]))
    else if rest[0] == BACKSLASH then StringFrom(rest[1..], true, done)
    else if rest[0] == QUOTE then Some(done)
    else StringFrom(rest[1..], false, done + BytesOf(rest[0]))
  }

  function SkipWhitespace(s: string): (r: string)
    ensures |r| <= |s| && r == s[|s| - |r|..]
    ensures r == [] || !IsAsciiWhitespace(r[0])
  {
    if s != [] && IsAsciiWhitespace(s[0]) then SkipWhitespace(s[1..]) else s
  }

  /** What follows the first occurrence of a text. */
  function After(s: string, text: string): (r: Option<string>)
    ensures r.Some? ==> |r.value| + |text| <= |s| && r.value == s[|s| - |r.value|..]
  {
    if text <= s then Some(s[|text|..])
    else if s == [] then None
    else After(s[1..], text)
  }

  function KeyText(field: string): string {
    [QUOTE] + field + [QUOTE, ':']
  }

  function StringField(line: string, field: string): Result<Option<string>, ReadError> {
    match After(line, KeyText(field))
    case None => Success(None)
    case Some(found) =>
      var rest := SkipWhitespace(found);
      if rest == [] || rest[0] != QUOTE then Success(None)
      else
        match StringFrom(rest[1..], false, [])
        case Some(text) => Success(Some(text))
        case None => Failure(CutCharacter)
  }

  /** The index behind leading whitespace. */
  method SkipSpaces(rest: string) returns (idx: nat)
    ensures idx <= |rest| && rest[idx..] == SkipWhitespace(rest)
  {
    idx := 0;
    assert rest[0..] == rest;
    while idx < |rest| && IsAsciiWhitespace(rest[idx])
      invariant 0 <= idx <= |rest|
      invariant SkipWhitespace(rest) == SkipWhitespace(rest[idx..])
    {
      assert rest[idx..][1..] == rest[idx + 1..];
      idx := idx + 1;
    }
  }

  /** One round of the loop below: how far it reads and what it appends. */
  lemma StringFromStep(rest: string, idx: nat, escaped: bool, done: string)
    requires idx < |rest|
    ensures
      var ch, window := rest[idx], Window(rest[idx + 1..], 4);
      StringFrom(rest[idx..], escaped, done) ==
        if escaped then
          if ch == 'u' then
            if window.None? then None
            else
              var hexEnd := idx + 1 + window.value;
              StringFrom(rest[hexEnd..], false, done + ScalarText(FromHex(rest[idx + 1..hexEnd])))
          else StringFrom(rest[idx + 1..], false, done + SimpleEscape(ch))
        else if ch == BACKSLASH then StringFrom(rest[idx + 1..], true, done)
        else if ch == QUOTE then Some(done)
        else StringFrom(rest[idx + 1..], false, done + BytesOf(ch))
  {
    hide ScalarText, FromHex, Window, BytesOf;
    assert rest[idx..][1..] == rest[idx + 1..];
    var window := Window(rest[idx + 1..], 4);
    if window.Some? {
      var hexEnd := idx + 1 + window.value;
      assert rest[idx..][1..hexEnd - idx] == rest[idx + 1..hexEnd];
      assert rest[idx..][hexEnd - idx..] == rest[hexEnd..];
    }
  }

  /** The loop that reads a quoted string from behind its opening quote. */
  method ReadString(rest: string, start: nat) returns (result: Option<string>)
    requires start <= |rest|
    ensures result == StringFrom(rest[start..], false, [])
  {
    hide StringFrom, ScalarText, FromHex, SimpleEscape, Window, BytesOf;
    var idx := start;
    var escaped := false;
    var text: string := [];
    while idx < |rest|
      invariant start <= idx <= |rest|
      invariant StringFrom(rest[idx..], escaped, text) == StringFrom(rest[start..], false, [])
      decreases |rest| - idx
    {
      StringFromStep(rest, idx, escaped, text);
      var ch := rest[idx];
      if escaped {
        if ch == 'u' {
          var window := Window(rest[idx + 1..], 4);
          if window.None? {
            return None;
          }
          var hexEnd := idx + 1 + window.value;
          text := text + ScalarText(FromHex(rest[idx + 1..hexEnd]));
          idx := hexEnd - 1;
        } else {
          text := text + SimpleEscape(ch);
        }
        escaped := false;
      } else if ch == BACKSLASH {
        escaped := true;
      } else if ch == QUOTE {
        return Some(text);
      } else {
        text := text + BytesOf(ch);
      }
      idx := idx + 1;
    }
    NothingLeftToRead(rest[idx..], escaped, text);
    return Some(text);
  }

  lemma NothingLeftToRead(rest: string, escaped: bool, done: string)
    requires rest == []
    ensures StringFrom(rest, escaped, done) == Some(done)
  {
  }

  /** `extract_string_field`. */
  method ExtractStringField(line: string, field: string) returns (r: Result<Option<string>, ReadError>)
    ensures r == StringField(line, field)
  {
    hide After, StringFrom;
    var found := After(line, KeyText(field));
    if found.None? {
      return Success(None);
    }
    var rest := found.value;
    var idx := SkipSpaces(rest);
    if idx >= |rest| || rest[idx] != QUOTE {
      return Success(None);
    }
    assert rest[idx..][1..] == rest[idx + 1..];
    var value := ReadString(rest, idx + 1);
    if value.None? {
      return Failure(CutCharacter);
    }
    return Success(value);
  }

  /** It does happen: four bytes after `\u` that end in the middle of an accented letter. */
  lemma AccentIsCut(others: string)
    ensures StringFrom("u000" + [0xE9 as char] + others, true, []) == None
  {
    var text := "u000" + [0xE9 as char] + others;
    assert Window(text[4..], 1) == None;
    assert text[3..][1..] == text[4..] && text[2..][1..] == text[3..] && text[1..][1..] == text[2..];
    assert Window(text[3..], 2) == None;
    assert Window(text[2..], 3) == None;
    assert Window(text[1..], 4) == None;
  }

  /** What a character of a string field reads back as: itself if it is ASCII or was escaped,
      and otherwise its bytes. */
  function FieldChar(c: char): (r: string)
    ensures r != []
  {
    if IsControl(c) then [c] else BytesOf(c)
  }

  function FieldText(s: string): string {
    if s == [] then [] else FieldChar(s[0]) + FieldText(s[1..])
  }

  /** ASCII and control characters only. */
  predicate FieldSafe(s: string) {
    s == [] || ((s[0] as int < 128 || IsControl(s[0])) && FieldSafe(s[1..]))
  }

  /** A text is kept by a string field exactly when it is all ASCII or control characters. */
  lemma {:induction false} FieldTextExactly(s: string)
    ensures |FieldText(s)| >= |s| && (FieldText(s) == s <==> FieldSafe(s))
    ensures !FieldSafe(s) ==> |FieldText(s)| > |s|
  {
    hide BytesOf;
    if s != [] {
      FieldTextExactly(s[1..]);
      assert s == [s[0]] + s[1..];
    }
  }

  /** Reading a quoted string undoes escaping (section 7 of RFC 8259), whatever follows the
      closing quote, except that characters beyond ASCII fall into their bytes. */
  lemma {:induction false} UnescapeEscape(s: string, u: string, done: string)
    ensures StringFrom(Escape(s) + [QUOTE] + u, false, done) == Some(done + FieldText(s))
  {
    hide EscapeChar, FieldChar;
    var tail := [QUOTE] + u;
    if s == [] {
      assert Escape(s) + [QUOTE] + u == tail && done + FieldText(s) == done;
    } else {
      var c, others := s[0], Escape(s[1..]) + [QUOTE] + u;
      assert Escape(s) + [QUOTE] + u == EscapeChar(c) + others;
      UnescapeChar(c, others, done);
      UnescapeEscape(s[1..], u, done + FieldChar(c));
      assert done + FieldChar(c) + FieldText(s[1..]) == done + FieldText(s);
    }
  }

  lemma UnescapeChar(c: char, rest: string, done: string)
    ensures StringFrom(EscapeChar(c) + rest, false, done) == StringFrom(rest, false, done + FieldChar(c))
  {
    hide Hex4, FromHex, Window, BytesOf;
    var text := EscapeChar(c) + rest;
    if c == QUOTE || c == BACKSLASH || c == '\n' || c == '\r' || c == '\t' {
      assert text[1..][0] == EscapeChar(c)[1] && text[1..][1..] == rest;
    } else if IsControl(c) {
      HexRoundTrip(c as int);
      assert text[1..] == ['u'] + Hex4(c as int) + rest;
      assert text[1..][1..] == Hex4(c as int) + rest;
      HexFits(c as int, rest);
      assert text[1..][1..5] == Hex4(c as int) && text[1..][5..] == rest;
    } else {
      assert text[1..] == rest;
    }
  }

  lemma HexFits(code: nat, rest: string)
    requires code < 0xA0
    ensures Window(Hex4(code) + rest, 4) == Some(4)
  {
    hide BytesOf;
    var text := Hex4(code) + rest;
    assert Window(text[4..], 0) == Some(0);
    assert text[3..][1..] == text[4..] && text[2..][1..] == text[3..] && text[1..][1..] == text[2..];
    assert Window(text[3..], 1) == Some(1);
    assert Window(text[2..], 2) == Some(2);
    assert Window(text[1..], 3) == Some(3);
  }

  lemma HexRoundTrip(code: nat)
    requires code < 0xA0
    ensures FromHex(Hex4(code)) == Some(code)
  {
    var h := Hex4(code);
    assert code / 0x1000 == 0 && code / 0x100 == 0 && h[0] == '0' && h[1] == '0';
    assert h[..3][..2] == h[..2] && h[..2][..1] == h[..1] && h[..1][..0] == [];
    assert HexNumber(h[..1]) == Some(0);
    assert HexNumber(h[..2]) == Some(0);
    assert HexNumber(h[..3]) == Some(code / 16 % 16);
  }

  // ---------------------------------------------------------------- numbers

  predicate EndsValue(c: char) {
    c == ',' || c == '}' || c == ']'
  }

  /** Everything before the next comma or closing bracket. */
  function UntilEnd(s: string): (r: string)
    ensures r <= s
  {
    if s == [] || EndsValue(s[0]) then [] else [s[0]] + UntilEnd(s[1..])
  }

  function RawField(line: string, field: string): Option<string> {
    match After(line, KeyText(field))
    case None => None
    case Some(found) => Some(Trim(UntilEnd(SkipWhitespace(found))))
  }

  function ParseDigits(text: string): Option<nat> {
    if text == [] then Some(0)
    else
      var last := text[|text| - 1];
      match ParseDigits(text[..|text| - 1])
      case Some(high) => if '0' <= last <= '9' then Some(10 * high + (last as int - '0' as int)) else None
      case None => None
  }

  /** `str::parse::<usize>` on a 64-bit machine. */
  function ParseUsize(text: string): Option<nat> {
    var digits := if |text| > 1 && text[0] == '+' then text[1..] else text;
    if digits == [] then None
    else
      match ParseDigits(digits)
      case Some(n) => if n < 0x1_0000_0000_0000_0000 then Some(n) else None
      case None => None
  }

  function UsizeField(line: string, field: string): Option<nat> {
    match RawField(line, field)
    case Some(text) => ParseUsize(text)
    case None => None
  }

  /** `as u32` drops the high half. */
  function U32Field(line: string, field: string): Option<nat> {
    match UsizeField(line, field)
    case Some(n) => Some(n % 0x1_0000_0000)
    case None => None
  }

  /** Rust prints an unsigned integer without leading zeros. */
  function Printed(n: nat): string {
    Digits(n, Width(n))
  }

  lemma {:induction false} ParsePrinted(n: nat, width: nat)
    requires n < Power10(width)
    ensures ParseDigits(Digits(n, width)) == Some(n)
  {
    if width > 0 {
      ParsePrinted(n / 10, width - 1);
      assert Digits(n, width)[..width - 1] == Digits(n / 10, width - 1);
    }
  }

  lemma {:induction false} DigitsAreDigits(n: nat, width: nat)
    ensures forall i :: 0 <= i < width ==> '0' <= Digits(n, width)[i] <= '9'
  {
    if width > 0 {
      DigitsAreDigits(n / 10, width - 1);
    }
  }

  lemma PrintedReadsBack(n: nat)
    requires n < 0x1_0000_0000_0000_0000
    ensures ParseUsize(Printed(n)) == Some(n)
  {
    WidthBounds(n);
    ParsePrinted(n, Width(n));
    DigitsAreDigits(n, Width(n));
  }
}
