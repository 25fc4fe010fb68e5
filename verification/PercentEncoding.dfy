/**
 * Percent-encoding of text (sections 2.1 and 2.3 of RFC 3986): UTF-8 bytes,
 * each either a character of a safe set or '%' and two hexadecimal digits; and
 * the decoder that undoes it.
 */
module PercentEncoding {
  import opened Wrappers

  type Byte = b: int | 0 <= b < 256

  /** The low six bits of a continuation byte. */
  type Six = b: int | 0 <= b < 64

  // ------------------------------------------------------------------ UTF-8

  datatype Point =
    | One(a: int)
    | Two(a: int, b: Six)
    | Three(a: int, b: Six, c: Six)
    | Four(a: int, b: Six, c: Six, d: Six)

  /** The bit groups of a character, by how many bytes it takes. */
  function PointOf(c: char): Point {
    var n := c as int;
    if n < 0x80 then One(n)
    else if n < 0x800 then Two(n / 64, n % 64)
    else if n < 0x10000 then Three(n / 4096, n / 64 % 64, n % 64)
    else Four(n / 262144, n / 4096 % 64, n / 64 % 64, n % 64)
  }

  function CodeOf(p: Point): int {
    match p
    case One(a) => a
    case Two(a, b) => a * 64 + b
    case Three(a, b, c) => a * 4096 + b * 64 + c
    case Four(a, b, c, d) => a * 262144 + b * 4096 + c * 64 + d
  }

  /** The groups fit the bytes they are put in. */
  predicate Fits(p: Point) {
    match p
    case One(a) => 0 <= a < 0x80
    case Two(a, _) => 0 <= a < 32
    case Three(a, _, _) => 0 <= a < 16
    case Four(a, _, _, _) => 0 <= a < 8
  }

  function PointBytes(p: Point): (r: seq<Byte>)
    requires Fits(p)
    ensures |r| > 0
  {
    match p
    case One(a) => [a]
    case Two(a, b) => [0xC0 + a, 0x80 + b]
    case Three(a, b, c) => [0xE0 + a, 0x80 + b, 0x80 + c]
    case Four(a, b, c, d) => [0xF0 + a, 0x80 + b, 0x80 + c, 0x80 + d]
  }

  predicate IsScalar(n: int) {
    0 <= n < 0xD800 || 0xE000 <= n < 0x110000
  }

  predicate Continues(b: Byte) {
    0x80 <= b < 0xC0
  }

  /** The first character of `bytes` and how many bytes it took. */
  function ReadPoint(bytes: seq<Byte>): (r: Option<(Point, nat)>)
    ensures r.Some? ==> 0 < r.value.1 <= |bytes|
  {
    if |bytes| == 0 then None
    else if bytes[0] < 0x80 then Some((One(bytes[0]), 1))
    else if 0xC0 <= bytes[0] < 0xE0 && |bytes| >= 2 && Continues(bytes[1]) then
      Some((Two(bytes[0] - 0xC0, bytes[1] - 0x80), 2))
    else if 0xE0 <= bytes[0] < 0xF0 && |bytes| >= 3 && Continues(bytes[1]) && Continues(bytes[2]) then
      Some((Three(bytes[0] - 0xE0, bytes[1] - 0x80, bytes[2] - 0x80), 3))
    else if 0xF0 <= bytes[0] < 0xF8 && |bytes| >= 4 && Continues(bytes[1]) && Continues(bytes[2]) && Continues(bytes[3]) then
      Some((Four(bytes[0] - 0xF0, bytes[1] - 0x80, bytes[2] - 0x80, bytes[3] - 0x80), 4))
    else None
  }

  lemma PointOfFits(c: char)
    ensures Fits(PointOf(c)) && CodeOf(PointOf(c)) == c as int && IsScalar(c as int)
  {
    var n := c as int;
    assert n / 4096 == n / 64 / 64 && n / 262144 == n / 4096 / 64;
  }

  function Utf8(text: string): seq<Byte> {
    if |text| == 0 then []
    else
      PointOfFits(text[0]);
      PointBytes(PointOf(text[0])) + Utf8(text[1..])
  }

  function FromUtf8(bytes: seq<Byte>): Option<string> {
    if |bytes| == 0 then Some("")
    else
      var point := ReadPoint(bytes);
      if point.None? || !IsScalar(CodeOf(point.value.0)) then None
      else
        var rest := FromUtf8(bytes[point.value.1..]);
        if rest.None? then None else Some([CodeOf(point.value.0) as char] + rest.value)
  }

  lemma ReadsItsBytes(p: Point, rest: seq<Byte>)
    requires Fits(p)
    ensures ReadPoint(PointBytes(p) + rest) == Some((p, |PointBytes(p)|))
  {
  }

  lemma {:induction false} Utf8RoundTrip(text: string)
    ensures FromUtf8(Utf8(text)) == Some(text)
  {
    if |text| > 0 {
      PointOfFits(text[0]);
      var p, rest := PointOf(text[0]), Utf8(text[1..]);
      ReadsItsBytes(p, rest);
      assert (PointBytes(p) + rest)[|PointBytes(p)|..] == rest;
      Utf8RoundTrip(text[1..]);
      assert text == [text[0]] + text[1..];
    }
  }

  // ---------------------------------------------------------------- Percent

  predicate Alphanumeric(c: char) {
    'A' <= c <= 'Z' || 'a' <= c <= 'z' || '0' <= c <= '9'
  }

  /** The marks encodeURIComponent leaves as they are, besides '-' and '_'. */
  predicate Mark(c: char) {
    c in {'!', '\'', '(', ')', '*', '~', '.'}
  }

  predicate Safe(c: char) {
    Alphanumeric(c) || c == '-' || c == '_'
  }

  /** The bytes that stand for themselves, with or without the marks. */
  predicate Kept(b: Byte, marks: bool) {
    b < 0x80 && (Safe(b as char) || (marks && Mark(b as char)))
  }

  function Hex(n: int): (c: char)
    requires 0 <= n < 16
  {
    if n < 10 then '0' + n as char else 'A' + (n - 10) as char
  }

  function HexValue(c: char): Option<int> {
    if '0' <= c <= '9' then Some(c as int - '0' as int)
    else if 'A' <= c <= 'F' then Some(c as int - 'A' as int + 10)
    else None
  }

  function EncodeByte(b: Byte, marks: bool): (r: string)
    ensures |r| == 1 || |r| == 3
  {
    if Kept(b, marks) then [b as char] else ['%', Hex(b / 16), Hex(b % 16)]
  }

  function EncodeBytes(bytes: seq<Byte>, marks: bool): string {
    if |bytes| == 0 then "" else EncodeByte(bytes[0], marks) + EncodeBytes(bytes[1..], marks)
  }

  /** encodeURIComponent, of text without lone surrogates. */
  function EncodeUriComponent(raw: string): string {
    EncodeBytes(Utf8(raw), true)
  }

  /** Every mark replaced by its own escape. */
  function EscapeMarks(s: string): string {
    if |s| == 0 then ""
    else (if Mark(s[0]) then EncodeByte(s[0] as int, false) else [s[0]]) + EscapeMarks(s[1..])
  }

  function Escape(raw: string): string {
    EscapeMarks(EncodeUriComponent(raw))
  }

  lemma {:induction false} EscapeMarksJoins(s: string, t: string)
    ensures EscapeMarks(s + t) == EscapeMarks(s) + EscapeMarks(t)
  {
    if |s| == 0 {
      assert s + t == t;
    } else {
      assert (s + t)[1..] == s[1..] + t;
      EscapeMarksJoins(s[1..], t);
    }
  }

  lemma HexIsSafe(n: int)
    requires 0 <= n < 16
    ensures Safe(Hex(n)) && !Mark(Hex(n)) && HexValue(Hex(n)) == Some(n)
  {
  }

  lemma EscapedByte(b: Byte)
    ensures EscapeMarks(EncodeByte(b, true)) == EncodeByte(b, false)
  {
    var s := EncodeByte(b, true);
    if Kept(b, true) {
      assert s[1..] == "";
    } else {
      HexIsSafe(b / 16);
      HexIsSafe(b % 16);
      assert s[1..][1..][1..] == "" && s[1..][1..][0] == Hex(b % 16) && s[1..][0] == Hex(b / 16);
      assert EscapeMarks(s[1..][1..]) == [Hex(b % 16)];
      assert EscapeMarks(s[1..]) == [Hex(b / 16)] + [Hex(b % 16)];
      assert EscapeMarks(s) == ['%'] + EscapeMarks(s[1..]);
    }
  }

  /** The two passes are one: every byte outside letters, digits, '-' and '_' is escaped. */
  lemma {:induction false} EscapeIsOnePass(bytes: seq<Byte>)
    ensures EscapeMarks(EncodeBytes(bytes, true)) == EncodeBytes(bytes, false)
  {
    if |bytes| > 0 {
      EscapedByte(bytes[0]);
      EscapeIsOnePass(bytes[1..]);
      EscapeMarksJoins(EncodeByte(bytes[0], true), EncodeBytes(bytes[1..], true));
    }
  }

  function DecodeBytes(s: string): Option<seq<Byte>> {
    if |s| == 0 then Some([])
    else if s[0] == '%' then
      if |s| < 3 then None
      else
        var high, low, rest := HexValue(s[1]), HexValue(s[2]), DecodeBytes(s[3..]);
        if high.None? || low.None? || rest.None? || !(0 <= high.value * 16 + low.value < 256) then None
        else Some([high.value * 16 + low.value] + rest.value)
    else
      var rest := DecodeBytes(s[1..]);
      if rest.None? || s[0] as int >= 256 then None else Some([s[0] as int] + rest.value)
  }

  function Unescape(s: string): Option<string> {
    var bytes := DecodeBytes(s);
    if bytes.None? then None else FromUtf8(bytes.value)
  }

  lemma DecodesByte(b: Byte, rest: string)
    requires DecodeBytes(rest).Some?
    ensures DecodeBytes(EncodeByte(b, false) + rest) == Some([b] + DecodeBytes(rest).value)
  {
    var s := EncodeByte(b, false) + rest;
    if Kept(b, false) {
      assert s[1..] == rest;
    } else {
      HexIsSafe(b / 16);
      HexIsSafe(b % 16);
      assert s[3..] == rest && s[0] == '%' && s[1] == Hex(b / 16) && s[2] == Hex(b % 16);
    }
  }

  lemma {:induction false} BytesRoundTrip(bytes: seq<Byte>)
    ensures DecodeBytes(EncodeBytes(bytes, false)) == Some(bytes)
  {
    if |bytes| > 0 {
      BytesRoundTrip(bytes[1..]);
      DecodesByte(bytes[0], EncodeBytes(bytes[1..], false));
      assert bytes == [bytes[0]] + bytes[1..];
    }
  }

  /** Every text is read back from its escaped form, so no two texts share one. */
  lemma EscapeRoundTrip(raw: string)
    ensures Unescape(Escape(raw)) == Some(raw)
  {
    EscapeIsOnePass(Utf8(raw));
    BytesRoundTrip(Utf8(raw));
    Utf8RoundTrip(raw);
  }

  lemma {:induction false} EncodedIsSafe(bytes: seq<Byte>)
    ensures forall c | c in EncodeBytes(bytes, false) :: Safe(c) || c == '%'
    ensures |bytes| > 0 ==> |EncodeBytes(bytes, false)| > 0
  {
    if |bytes| > 0 {
      EncodedIsSafe(bytes[1..]);
      if !Kept(bytes[0], false) {
        HexIsSafe(bytes[0] / 16);
        HexIsSafe(bytes[0] % 16);
      }
    }
  }

  /** An escaped text has only letters, digits, '-', '_' and '%': no separator and no glob character. */
  lemma EscapedAlphabet(raw: string)
    ensures forall c | c in Escape(raw) :: Safe(c) || c == '%'
    ensures |raw| > 0 ==> |Escape(raw)| > 0
  {
    EscapeIsOnePass(Utf8(raw));
    EncodedIsSafe(Utf8(raw));
  }

  /**
   * Letters, digits, '-' and '_' stand for themselves, and in the first pass the
   * seven marks do; every other byte for '%' and its two upper-case hexadecimal digits.
   */
  lemma EncodedByteExactly(b: Byte, marks: bool)
    ensures var digits := "0123456789ABCDEF";
            EncodeByte(b, marks) ==
            if 'A' as int <= b <= 'Z' as int || 'a' as int <= b <= 'z' as int || '0' as int <= b <= '9' as int
               || b == '-' as int || b == '_' as int || (marks && b < 128 && b as char in "!'()*~.")
            then [b as char] else ['%', digits[b / 16], digits[b % 16]]
  {
    HexExactly(b / 16);
    HexExactly(b % 16);
    MarkExactly(if b < 128 then b as char else 'a');
  }

  lemma MarkExactly(c: char)
    ensures Mark(c) <==> c in "!'()*~."
  {
    var marks := "!'()*~.";
    assert marks[0] == '!' && marks[1] == '\'' && marks[2] == '(' && marks[3] == ')' && marks[4] == '*' && marks[5] == '~' && marks[6] == '.';
  }

  lemma HexExactly(n: int)
    requires 0 <= n < 16
    ensures Hex(n) == "0123456789ABCDEF"[n]
  {
  }

  /** UTF-8 of characters of one to four bytes. */
  lemma Utf8Texts()
    ensures Utf8("a") == [0x61] && Utf8(['\U{00E9}']) == [0xC3, 0xA9] && Utf8(['\U{20AC}']) == [0xE2, 0x82, 0xAC]
    ensures Utf8(['\U{1F600}']) == [0xF0, 0x9F, 0x98, 0x80]
  {
    UtfOfOne('a', [0x61]);
    UtfOfOne('\U{00E9}', [0xC3, 0xA9]);
    UtfOfOne('\U{20AC}', [0xE2, 0x82, 0xAC]);
    UtfOfOne('\U{1F600}', [0xF0, 0x9F, 0x98, 0x80]);
  }

  /** Escaped texts as they come out. */
  lemma EscapedTexts()
    ensures Escape("*:") == "%2A%3A" && Escape(['\U{00E9}']) == "%C3%A9"
  {
    MarksEscaped();
    Utf8Texts();
    assert [0xC3 as Byte, 0xA9][1..] == [0xA9];
    EscapeOf(['\U{00E9}'], [0xC3, 0xA9], "%C3%A9");
  }

  lemma MarksEscaped()
    ensures Escape("*:") == "%2A%3A"
  {
    UtfOfOne(':', [0x3A]);
    assert "*:"[1..] == ":";
    assert Utf8("*:") == [0x2A] + Utf8(":");
    assert [0x2A as Byte, 0x3A][1..] == [0x3A];
    EscapeOf("*:", [0x2A, 0x3A], "%2A%3A");
  }

  lemma UtfOfOne(c: char, bytes: seq<Byte>)
    requires Fits(PointOf(c)) && PointBytes(PointOf(c)) == bytes
    ensures Utf8([c]) == bytes
  {
    assert [c][1..] == [];
  }

  lemma EscapeOf(text: string, bytes: seq<Byte>, escaped: string)
    requires Utf8(text) == bytes && EncodeBytes(bytes, false) == escaped
    ensures Escape(text) == escaped
  {
    EscapeIsOnePass(bytes);
  }
}
