/**
 * Opaque page tokens: an offset as unpadded base64url text (section 5 of RFC
 * 4648) with a prefix. `Atob` is the forgiving base64 decoder of the platform.
 */
module PageToken {
  import opened Wrappers
  import Decimal

  const PREFIX := "o:"
  const MAX_SAFE_INTEGER := 9_007_199_254_740_991
  const MAX_DIGITS := 15

  datatype Error = RangeError | InvalidCharacter

  // ---------------------------------------------------------------- Sextets

  type Byte = b: int | 0 <= b < 256
  type Sextet = b: int | 0 <= b < 64

  function First(a: Byte): Sextet {
    a / 4
  }

  function Second(a: Byte, b: Byte): Sextet {
    a % 4 * 16 + b / 16
  }

  function Third(b: Byte, c: Byte): Sextet {
    b % 16 * 4 + c / 64
  }

  function Fourth(c: Byte): Sextet {
    c % 64
  }

  /** Three bytes to four sextets; a rest of one byte to two, of two bytes to three. */
  function ToSextets(bytes: seq<Byte>): (s: seq<Sextet>)
    ensures |s| % 4 != 1 && (|bytes| > 0 ==> |s| > 0)
  {
    if |bytes| == 0 then []
    else if |bytes| == 1 then [First(bytes[0]), Second(bytes[0], 0)]
    else if |bytes| == 2 then [First(bytes[0]), Second(bytes[0], bytes[1]), Third(bytes[1], 0)]
    else
      [First(bytes[0]), Second(bytes[0], bytes[1]), Third(bytes[1], bytes[2]), Fourth(bytes[2])]
      + ToSextets(bytes[3..])
  }

  function ByteA(p: Sextet, q: Sextet): Byte {
    p * 4 + q / 16
  }

  function ByteB(q: Sextet, r: Sextet): Byte {
    q % 16 * 16 + r / 4
  }

  function ByteC(r: Sextet, s: Sextet): Byte {
    r % 4 * 64 + s
  }

  /** The inverse reading: left-over bits of the last sextet are dropped, a single left-over sextet too. */
  function FromSextets(s: seq<Sextet>): seq<Byte> {
    if |s| < 2 then []
    else if |s| == 2 then [ByteA(s[0], s[1])]
    else if |s| == 3 then [ByteA(s[0], s[1]), ByteB(s[1], s[2])]
    else [ByteA(s[0], s[1]), ByteB(s[1], s[2]), ByteC(s[2], s[3])] + FromSextets(s[4..])
  }

  /** The bit fields of three bytes come back from their four sextets. */
  lemma GroupRoundTrip(a: Byte, b: Byte, c: Byte)
    ensures ByteA(First(a), Second(a, b)) == a
    ensures ByteB(Second(a, b), Third(b, c)) == b
    ensures ByteC(Third(b, c), Fourth(c)) == c
  {
  }

  lemma ReadGroup(p: Sextet, q: Sextet, r: Sextet, s: Sextet, rest: seq<Sextet>)
    ensures FromSextets([p, q, r, s] + rest) == [ByteA(p, q), ByteB(q, r), ByteC(r, s)] + FromSextets(rest)
  {
    assert ([p, q, r, s] + rest)[4..] == rest;
  }

  lemma ReadTail(p: Sextet, q: Sextet, r: Sextet)
    ensures FromSextets([p, q]) == [ByteA(p, q)]
    ensures FromSextets([p, q, r]) == [ByteA(p, q), ByteB(q, r)]
  {
  }

  lemma {:induction false} SextetsRoundTrip(bytes: seq<Byte>)
    ensures FromSextets(ToSextets(bytes)) == bytes
  {
    if |bytes| == 1 {
      OneByteRoundTrip(bytes[0]);
    } else if |bytes| == 2 {
      TwoBytesRoundTrip(bytes[0], bytes[1]);
    } else if |bytes| >= 3 {
      SextetsRoundTrip(bytes[3..]);
      GroupThenRest(bytes[0], bytes[1], bytes[2], ToSextets(bytes[3..]));
    }
  }

  lemma OneByteRoundTrip(a: Byte)
    ensures FromSextets([First(a), Second(a, 0)]) == [a]
  {
    ReadTail(First(a), Second(a, 0), 0);
    GroupRoundTrip(a, 0, 0);
  }

  lemma TwoBytesRoundTrip(a: Byte, b: Byte)
    ensures FromSextets([First(a), Second(a, b), Third(b, 0)]) == [a, b]
  {
    ReadTail(First(a), Second(a, b), Third(b, 0));
    GroupRoundTrip(a, b, 0);
  }

  lemma GroupThenRest(a: Byte, b: Byte, c: Byte, rest: seq<Sextet>)
    ensures FromSextets([First(a), Second(a, b), Third(b, c), Fourth(c)] + rest) == [a, b, c] + FromSextets(rest)
  {
    ReadGroup(First(a), Second(a, b), Third(b, c), Fourth(c), rest);
    GroupRoundTrip(a, b, c);
  }

  // --------------------------------------------------------------- Alphabet

  function Char64(v: Sextet): char {
    if v < 26 then 'A' + v as char
    else if v < 52 then 'a' + (v - 26) as char
    else if v < 62 then '0' + (v - 52) as char
    else if v == 62 then '+' else '/'
  }

  function Index64(c: char): Option<Sextet> {
    if 'A' <= c <= 'Z' then Some(c as int - 'A' as int)
    else if 'a' <= c <= 'z' then Some(c as int - 'a' as int + 26)
    else if '0' <= c <= '9' then Some(c as int - '0' as int + 52)
    else if c == '+' then Some(62)
    else if c == '/' then Some(63)
    else None
  }

  function Chars(s: seq<Sextet>): (r: string)
    ensures |r| == |s| && forall i | 0 <= i < |s| :: r[i] == Char64(s[i])
  {
    seq(|s|, i requires 0 <= i < |s| => Char64(s[i]))
  }

  /** None when some character is outside the alphabet. */
  function Indices(t: string): (r: Option<seq<Sextet>>)
    ensures r.Some? <==> forall i | 0 <= i < |t| :: Index64(t[i]).Some?
    ensures r.Some? ==> |r.value| == |t| && forall i | 0 <= i < |t| :: Index64(t[i]) == Some(r.value[i])
  {
    if |t| == 0 then Some([])
    else
      var front, last := Indices(t[..|t| - 1]), Index64(t[|t| - 1]);
      assert forall i | 0 <= i < |t| - 1 :: t[..|t| - 1][i] == t[i];
      if front.Some? && last.Some? then Some(front.value + [last.value]) else None
  }

  lemma IndicesOfChars(s: seq<Sextet>)
    ensures Indices(Chars(s)) == Some(s)
  {
    assert forall i | 0 <= i < |s| :: Index64(Chars(s)[i]) == Some(s[i]);
    assert Indices(Chars(s)).value == s;
  }

  // ------------------------------------------------------------ btoa and atob

  function Pad(n: nat): (r: string)
    ensures |r| == n && forall i | 0 <= i < n :: r[i] == '='
  {
    seq(n, _ => '=')
  }

  /** Every character stands for one byte; others are an InvalidCharacterError. */
  function Bytes(text: string): (r: Option<seq<Byte>>)
    ensures r.Some? <==> forall i | 0 <= i < |text| :: text[i] as int < 256
    ensures r.Some? ==> |r.value| == |text| && forall i | 0 <= i < |text| :: r.value[i] == text[i] as int
  {
    if forall i | 0 <= i < |text| :: text[i] as int < 256
    then Some(seq(|text|, i requires 0 <= i < |text| && text[i] as int < 256 => text[i] as int))
    else None
  }

  function Text(bytes: seq<Byte>): (r: string)
    ensures |r| == |bytes| && forall i | 0 <= i < |bytes| :: r[i] as int == bytes[i]
  {
    seq(|bytes|, i requires 0 <= i < |bytes| => bytes[i] as char)
  }

  function Btoa(text: string): Result<string, Error> {
    var bytes := Bytes(text);
    if bytes.None? then Err(InvalidCharacter)
    else
      var chars := Chars(ToSextets(bytes.value));
      Ok(chars + Pad(Missing(|chars|)))
  }

  predicate IsSpace(c: char) {
    c == ' ' || c == '\t' || c == '\n' || c == '\r' || c == '\U{0C}'
  }

  function WithoutSpace(t: string): string {
    if |t| == 0 then ""
    else WithoutSpace(t[..|t| - 1]) + if IsSpace(t[|t| - 1]) then "" else [t[|t| - 1]]
  }

  /** Up to two '=' at the end, dropped only from a length divisible by four. */
  function WithoutPadding(t: string): string {
    if |t| % 4 != 0 || |t| == 0 || t[|t| - 1] != '=' then t
    else if t[|t| - 2] != '=' then t[..|t| - 1]
    else t[..|t| - 2]
  }

  function Decoded(t: string): Result<string, Error> {
    var sextets := Indices(t);
    if |t| % 4 == 1 || sextets.None? then Err(InvalidCharacter) else Ok(Text(FromSextets(sextets.value)))
  }

  function Bare(data: string): string {
    WithoutPadding(WithoutSpace(data))
  }

  function Atob(data: string): Result<string, Error> {
    Decoded(Bare(data))
  }

  /** Characters that fill the last group of four. */
  function Missing(n: nat): (r: nat)
    ensures r < 4 && (n + r) % 4 == 0
  {
    (4 - n % 4) % 4
  }

  lemma {:induction false} NoSpaceToDrop(t: string)
    requires forall i | 0 <= i < |t| :: !IsSpace(t[i])
    ensures WithoutSpace(t) == t
  {
    if |t| > 0 {
      var front, last := t[..|t| - 1], t[|t| - 1];
      forall i | 0 <= i < |front|
        ensures !IsSpace(front[i])
      {
        assert front[i] == t[i];
      }
      NoSpaceToDrop(front);
      assert WithoutSpace(t) == front + [last] == t;
    }
  }

  // --------------------------------------------------------------- Base64url

  function Replace(t: string, from: char, to: char): (r: string)
    ensures |r| == |t| && forall i | 0 <= i < |t| :: r[i] == if t[i] == from then to else t[i]
  {
    seq(|t|, i requires 0 <= i < |t| => if t[i] == from then to else t[i])
  }

  /** Every '=' at the end. */
  function StripPadding(t: string): string {
    if |t| > 0 && t[|t| - 1] == '=' then StripPadding(t[..|t| - 1]) else t
  }

  function ToBase64Url(text: string): Result<string, Error> {
    match Btoa(text)
    case Err(e) => Err(e)
    case Ok(b64) => Ok(StripPadding(Replace(Replace(b64, '+', '-'), '/', '_')))
  }

  function FromBase64Url(token: string): Result<string, Error> {
    var b64 := Replace(Replace(token, '-', '+'), '_', '/');
    Atob(b64 + Pad(Missing(|b64|)))
  }

  /** The characters of a token: letters, digits, '-' and '_'. */
  predicate UrlSafe(c: char) {
    'A' <= c <= 'Z' || 'a' <= c <= 'z' || '0' <= c <= '9' || c == '-' || c == '_'
  }

  lemma {:induction false} StripsJustThePadding(t: string, n: nat)
    requires forall i | 0 <= i < |t| :: t[i] != '='
    ensures StripPadding(t + Pad(n)) == t
  {
    if n == 0 {
      assert t + Pad(0) == t;
    } else {
      assert (t + Pad(n))[..|t| + n - 1] == t + Pad(n - 1);
      StripsJustThePadding(t, n - 1);
    }
  }

  /** The alphabet of the token before it was made safe, and padding to whole groups, come back. */
  lemma Repadded(sextets: seq<Sextet>, n: nat)
    requires |sextets| % 4 != 1 && n == Missing(|sextets|)
    ensures var safe := Replace(Replace(Chars(sextets) + Pad(n), '+', '-'), '/', '_');
            var token := StripPadding(safe);
            && |token| == |sextets| && (forall i | 0 <= i < |token| :: UrlSafe(token[i]))
            && Replace(Replace(token, '-', '+'), '_', '/') == Chars(sextets)
  {
    var safe := Replace(Replace(Chars(sextets) + Pad(n), '+', '-'), '/', '_');
    var token := Replace(Replace(Chars(sextets), '+', '-'), '/', '_');
    assert safe == token + Pad(n);
    assert forall i | 0 <= i < |token| :: UrlSafe(token[i]);
    StripsJustThePadding(token, n);
    assert Replace(Replace(token, '-', '+'), '_', '/') == Chars(sextets);
  }

  /** Neither padding nor white space. */
  predicate Plain(t: string) {
    forall i | 0 <= i < |t| :: t[i] != '=' && !IsSpace(t[i])
  }

  lemma SpaceKept(t: string, n: nat)
    requires Plain(t)
    ensures WithoutSpace(t + Pad(n)) == t + Pad(n)
  {
    NoSpaceToDrop(t + Pad(n));
  }

  lemma PaddingDropped(t: string, n: nat)
    requires Plain(t) && n <= 2 && (|t| + n) % 4 == 0
    ensures WithoutPadding(t + Pad(n)) == t
  {
    var padded := t + Pad(n);
    if n == 0 {
      assert padded == t;
    } else if n == 1 {
      assert padded[|padded| - 1] == '=' && padded[..|padded| - 1] == t;
    } else {
      assert padded[|padded| - 1] == '=' && padded[|padded| - 2] == '=' && padded[..|padded| - 2] == t;
    }
  }

  lemma DecodedChars(sextets: seq<Sextet>)
    requires |sextets| % 4 != 1
    ensures Decoded(Chars(sextets)) == Ok(Text(FromSextets(sextets)))
  {
    IndicesOfChars(sextets);
  }

  lemma AtMostTwoMissing(n: nat)
    requires n % 4 != 1
    ensures Missing(n) <= 2
  {
  }

  lemma CharIsPlain(v: Sextet)
    ensures Char64(v) != '=' && !IsSpace(Char64(v))
  {
  }

  lemma CharsArePlain(sextets: seq<Sextet>)
    ensures Plain(Chars(sextets))
  {
    forall i | 0 <= i < |sextets|
      ensures Chars(sextets)[i] != '=' && !IsSpace(Chars(sextets)[i])
    {
      CharIsPlain(sextets[i]);
    }
  }

  lemma BareOfPadded(chars: string, n: nat)
    requires Plain(chars) && n <= 2 && (|chars| + n) % 4 == 0
    ensures Bare(chars + Pad(n)) == chars
  {
    SpaceKept(chars, n);
    PaddingDropped(chars, n);
  }

  /** Padding makes no difference to what is read. */
  lemma AtobOfPadded(chars: string, n: nat, text: string)
    requires Plain(chars) && n <= 2 && (|chars| + n) % 4 == 0 && Decoded(chars) == Ok(text)
    ensures Atob(chars + Pad(n)) == Ok(text)
  {
    BareOfPadded(chars, n);
  }

  lemma DecodedBytes(bytes: seq<Byte>)
    ensures Decoded(Chars(ToSextets(bytes))) == Ok(Text(bytes))
  {
    SextetsRoundTrip(bytes);
    DecodedChars(ToSextets(bytes));
  }

  lemma TextOfBytes(text: string)
    requires Bytes(text).Some?
    ensures Text(Bytes(text).value) == text
  {
  }

  lemma ReadBack(chars: string, n: nat, text: string, token: string)
    requires Plain(chars) && n == Missing(|chars|) && n <= 2 && Decoded(chars) == Ok(text)
    requires Replace(Replace(token, '-', '+'), '_', '/') == chars
    ensures FromBase64Url(token) == Ok(text)
  {
    AtobOfPadded(chars, n, text);
  }

  /** Decoding undoes encoding for every text of single-byte characters, without any padding in between. */
  lemma Base64UrlRoundTrip(text: string)
    requires forall i | 0 <= i < |text| :: text[i] as int < 256
    ensures ToBase64Url(text).Ok? && FromBase64Url(ToBase64Url(text).value) == Ok(text)
    ensures forall c | c in ToBase64Url(text).value :: UrlSafe(c)
    ensures |text| > 0 ==> |ToBase64Url(text).value| > 0
  {
    var bytes := Bytes(text).value;
    var sextets := ToSextets(bytes);
    var n := Missing(|sextets|);
    Repadded(sextets, n);
    AtMostTwoMissing(|sextets|);
    CharsArePlain(sextets);
    DecodedBytes(bytes);
    TextOfBytes(text);
    ReadBack(Chars(sextets), n, text, ToBase64Url(text).value);
  }

  /** And fails exactly when a character needs more than one byte. */
  lemma EncodingFailsExactly(text: string)
    ensures ToBase64Url(text).Err? <==> exists i | 0 <= i < |text| :: text[i] as int >= 256
  {
  }

  // ------------------------------------------------------------------ Tokens

  function EncodeOffsetPageToken(offset: int): Result<string, Error> {
    if offset < 0 || offset > MAX_SAFE_INTEGER then Err(RangeError)
    else ToBase64Url(PREFIX + Decimal.Print(offset))
  }

  /** 0 for an empty token, None for one that was not issued here. */
  function DecodeOffsetPageToken(token: string): Option<nat> {
    if token == "" then Some(0)
    else
      match FromBase64Url(token)
      case Err(_) => None
      case Ok(text) =>
        if !(PREFIX <= text) then None
        else
          var digits := text[|PREFIX|..];
          if 1 <= |digits| <= MAX_DIGITS && forall i | 0 <= i < |digits| :: Decimal.IsDigit(digits[i])
          then Some(Decimal.Value(digits)) else None
  }

  const BOUND := 1_000_000_000_000_000

  lemma BoundIsTenToFifteen()
    ensures Decimal.TenTo(MAX_DIGITS) == BOUND
  {
    assert Decimal.TenTo(5) == 100_000;
    assert Decimal.TenTo(10) == 10_000_000_000;
  }

  /** A token reads back as its offset exactly when the offset is below 10^15; above, as none at all. */
  lemma TokenRoundTripsExactly(offset: int)
    requires 0 <= offset <= MAX_SAFE_INTEGER
    ensures EncodeOffsetPageToken(offset).Ok?
    ensures DecodeOffsetPageToken(EncodeOffsetPageToken(offset).value) == if offset < BOUND then Some(offset) else None
  {
    var digits := Decimal.Print(offset);
    var text := PREFIX + digits;
    Base64UrlRoundTrip(text);
    assert text[|PREFIX|..] == digits;
    Decimal.ValueOfPrint(offset);
    Decimal.Length(offset, MAX_DIGITS);
    BoundIsTenToFifteen();
  }

  /** No token, issued here or not, reads as an offset of 10^15 or more. */
  lemma DecodedIsBelowBound(token: string)
    ensures DecodeOffsetPageToken(token).Some? ==> DecodeOffsetPageToken(token).value < BOUND
  {
    if token != "" && DecodeOffsetPageToken(token).Some? {
      var digits := FromBase64Url(token).value[|PREFIX|..];
      Decimal.ValueBelow(digits);
      BoundIsTenToFifteen();
      TenMonotone(|digits|, MAX_DIGITS);
    }
  }

  lemma {:induction false} TenMonotone(k: nat, m: nat)
    requires k <= m
    ensures Decimal.TenTo(k) <= Decimal.TenTo(m)
  {
    if k < m {
      TenMonotone(k, m - 1);
    }
  }

  /** Tokens are made of URL-safe characters and no two offsets share one. */
  lemma TokensAreDistinct(offset: int, other: int)
    requires 0 <= offset < other <= MAX_SAFE_INTEGER
    ensures EncodeOffsetPageToken(offset) != EncodeOffsetPageToken(other)
    ensures forall c | c in EncodeOffsetPageToken(offset).value :: UrlSafe(c)
  {
    var text, text' := PREFIX + Decimal.Print(offset), PREFIX + Decimal.Print(other);
    Base64UrlRoundTrip(text);
    Base64UrlRoundTrip(text');
    if text == text' {
      assert text[|PREFIX|..] == Decimal.Print(offset) && text'[|PREFIX|..] == Decimal.Print(other);
      Decimal.PrintInjective(offset, other);
    }
  }

  /** An offset is read from the empty token, or from "o:" and one to fifteen digits. */
  lemma DecodedExactly(token: string, n: nat)
    ensures DecodeOffsetPageToken(token) == Some(n) <==>
            || (token == "" && n == 0)
            || (token != "" && exists digits: string ::
                  && FromBase64Url(token) == Ok("o:" + digits) && 1 <= |digits| <= 15
                  && (forall i | 0 <= i < |digits| :: '0' <= digits[i] <= '9') && Decimal.Value(digits) == n)
  {
    if token != "" && FromBase64Url(token).Ok? {
      var text := FromBase64Url(token).value;
      if PREFIX <= text {
        assert text == "o:" + text[2..];
      }
      if digits: string :| text == "o:" + digits {
        assert text[2..] == digits && PREFIX <= text;
      }
    }
  }

  /** A text of which the base64 form is `chars` and needs no padding. */
  lemma UrlForm(text: string, bytes: seq<Byte>, sextets: seq<Sextet>, chars: string, url: string)
    requires Bytes(text) == Some(bytes) && ToSextets(bytes) == sextets && Chars(sextets) == chars
    requires Replace(Replace(chars + Pad(Missing(|chars|)), '+', '-'), '/', '_') == url + Pad(Missing(|chars|))
    requires forall i | 0 <= i < |url| :: url[i] != '='
    ensures ToBase64Url(text) == Ok(url)
  {
    StripsJustThePadding(url, Missing(|chars|));
  }

  /** Tokens as they are issued, and the characters that stand for '+' and '/'. */
  lemma IssuedTokens()
    ensures EncodeOffsetPageToken(0) == Ok("bzow") && EncodeOffsetPageToken(25) == Ok("bzoyNQ")
    ensures ToBase64Url([255 as char, 255 as char, 254 as char]) == Ok("___-")
  {
    Decimal.PrintedNumbers();
    assert PREFIX + Decimal.Print(0) == "o:0" && PREFIX + Decimal.Print(25) == "o:25";
    FirstToken();
    SecondToken();
    HighBytes();
  }

  lemma FirstToken()
    ensures ToBase64Url("o:0") == Ok("bzow")
  {
    assert Bytes("o:0").value == [111, 58, 48];
    assert ToSextets([111, 58, 48]) == [27, 51, 40, 48];
    assert Chars([27, 51, 40, 48]) == "bzow";
    UrlForm("o:0", [111, 58, 48], [27, 51, 40, 48], "bzow", "bzow");
  }

  lemma SecondToken()
    ensures ToBase64Url("o:25") == Ok("bzoyNQ")
  {
    assert Bytes("o:25").value == [111, 58, 50, 53];
    assert [111, 58, 50, 53][3..] == [53];
    assert ToSextets([111, 58, 50, 53]) == [27, 51, 40, 50, 13, 16];
    assert Chars([27, 51, 40, 50, 13, 16]) == "bzoyNQ";
    UrlForm("o:25", [111, 58, 50, 53], [27, 51, 40, 50, 13, 16], "bzoyNQ", "bzoyNQ");
  }

  lemma HighBytes()
    ensures ToBase64Url([255 as char, 255 as char, 254 as char]) == Ok("___-")
  {
    var text := [255 as char, 255 as char, 254 as char];
    assert Bytes(text).value == [255, 255, 254];
    assert ToSextets([255, 255, 254]) == [63, 63, 63, 62];
    assert Chars([63, 63, 63, 62]) == "///+";
    UrlForm(text, [255, 255, 254], [63, 63, 63, 62], "///+", "___-");
  }
}
