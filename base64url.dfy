/** Decoding of an application-server key written in the URL-safe base64
    alphabet (section 5 of RFC 4648) into bytes, as `urlBase64ToUint8Array`
    in src/scripts/index.js does it: pad to a multiple of four, translate to
    the standard alphabet (section 4 of RFC 4648), run `atob`, and take the
    character codes. `atob` is the "forgiving-base64 decode" of the WHATWG
    Infra standard. The encoder that produces unpadded URL-safe base64 is
    the partner that the round-trip lemma is stated against. */
module Base64Url {
  import opened JsModel

  type byte = b: int | 0 <= b < 256

  /** A base64 digit: six bits. */
  type sextet = v: int | 0 <= v < 64

  // ---------------------------------------------------------------------------
  // Alphabets

  /** Position of `c` in the standard alphabet `A-Z a-z 0-9 + /`. */
  function StdValue(c: char): Option<sextet>
  {
    if 'A' <= c <= 'Z' then Some(c as int - 'A' as int)
    else if 'a' <= c <= 'z' then Some(c as int - 'a' as int + 26)
    else if '0' <= c <= '9' then Some(c as int - '0' as int + 52)
    else if c == '+' then Some(62)
    else if c == '/' then Some(63)
    else None
  }

  /** The digit `v` of the URL-safe alphabet `A-Z a-z 0-9 - _`. */
  function UrlChar(v: sextet): char
  {
    if v < 26 then ('A' as int + v) as char
    else if v < 52 then ('a' as int + v - 26) as char
    else if v < 62 then ('0' as int + v - 52) as char
    else if v == 62 then '-'
    else '_'
  }

  /** `.replace(/-/g, '+').replace(/_/g, '/')` on one character. */
  function ToStdChar(c: char): (r: char)
    ensures c != '-' && c != '_' ==> r == c
  {
    if c == '-' then '+' else if c == '_' then '/' else c
  }

  function ToStdAlphabet(s: string): (r: string)
    ensures |r| == |s|
  {
    seq(|s|, i requires 0 <= i < |s| => ToStdChar(s[i]))
  }

  /** The two replacements turn exactly `-` into `+` and `_` into `/`. */
  lemma ToStdAlphabetSpec(s: string)
    ensures forall i :: 0 <= i < |s| && s[i] == '-' ==> ToStdAlphabet(s)[i] == '+'
    ensures forall i :: 0 <= i < |s| && s[i] == '_' ==> ToStdAlphabet(s)[i] == '/'
    ensures forall i :: 0 <= i < |s| && s[i] != '-' && s[i] != '_' ==> ToStdAlphabet(s)[i] == s[i]
    ensures '-' !in ToStdAlphabet(s) && '_' !in ToStdAlphabet(s)
  {
  }

  // ---------------------------------------------------------------------------
  // Padding: `'='.repeat((4 - (s.length % 4)) % 4)`

  function PaddingCount(len: nat): (p: nat)
    ensures p <= 3
    ensures (len + p) % 4 == 0
    ensures p == 0 <==> len % 4 == 0
  {
    (4 - len % 4) % 4
  }

  function Repeat(c: char, n: nat): (r: string)
    ensures |r| == n && forall i :: 0 <= i < n ==> r[i] == c
  {
    seq(n, _ => c)
  }

  function Padded(s: string): (r: string)
    ensures |r| % 4 == 0 && |s| <= |r| <= |s| + 3 && r[..|s|] == s
  {
    s + Repeat('=', PaddingCount(|s|))
  }

  // ---------------------------------------------------------------------------
  // `atob`: forgiving-base64 decode

  predicate IsAsciiWhitespace(c: char)
  {
    c == '\t' || c == '\n' || c == '\U{000C}' || c == '\r' || c == ' '
  }

  function RemoveWhitespace(s: string): (r: string)
    ensures forall i :: 0 <= i < |r| ==> !IsAsciiWhitespace(r[i])
    ensures |r| <= |s|
  {
    if s == [] then []
    else (if IsAsciiWhitespace(s[0]) then [] else [s[0]]) + RemoveWhitespace(s[1..])
  }

  /** When the length is a multiple of four, one or two trailing `=` are dropped. */
  function StripPadding(s: string): (r: string)
    ensures |s| % 4 != 0 ==> r == s
    ensures |r| <= |s| && r == s[..|r|]
  {
    if |s| % 4 == 0 && |s| >= 2 && s[|s| - 2..] == "==" then s[..|s| - 2]
    else if |s| % 4 == 0 && |s| >= 1 && s[|s| - 1] == '=' then s[..|s| - 1]
    else s
  }

  /** The digits of `s`, or `None` when a character is outside the standard alphabet. */
  function Sextets(s: string): (r: Option<seq<sextet>>)
    ensures r.Some? <==> forall i :: 0 <= i < |s| ==> StdValue(s[i]).Some?
    ensures r.Some? ==> |r.value| == |s| && forall i :: 0 <= i < |s| ==> Some(r.value[i]) == StdValue(s[i])
  {
    if forall i :: 0 <= i < |s| ==> StdValue(s[i]).Some? then
      Some(seq(|s|, i requires 0 <= i < |s| => StdValue(s[i]).value))
    else None
  }

  /** Groups of four digits give three bytes; a final two or three digits give
      one or two bytes, their surplus low bits discarded. */
  function DecodeSextets(v: seq<sextet>): (r: seq<byte>)
    requires |v| % 4 != 1
    decreases |v|
  {
    if |v| == 0 then []
    else if |v| == 2 then DecodeTwo(v[0], v[1])
    else if |v| == 3 then DecodeThree(v[0], v[1], v[2])
    else DecodeFour(v[0], v[1], v[2], v[3]) + DecodeSextets(v[4..])
  }

  function DecodeTwo(a: sextet, b: sextet): seq<byte>
  {
    [a * 4 + b / 16]
  }

  function DecodeThree(a: sextet, b: sextet, c: sextet): seq<byte>
  {
    [a * 4 + b / 16, (b % 16) * 16 + c / 4]
  }

  function DecodeFour(a: sextet, b: sextet, c: sextet, d: sextet): seq<byte>
  {
    [a * 4 + b / 16, (b % 16) * 16 + c / 4, (c % 4) * 64 + d]
  }

  /** A byte as the character of that code ("binary string" of `atob`). */
  function ByteChars(b: seq<byte>): (r: string)
    ensures |r| == |b| && forall i :: 0 <= i < |b| ==> r[i] as int == b[i]
  {
    seq(|b|, i requires 0 <= i < |b| => b[i] as char)
  }

  /** `atob(s)`: `None` is the `InvalidCharacterError` it throws. */
  function Atob(s: string): (r: Option<string>)
    ensures r.Some? ==> forall i :: 0 <= i < |r.value| ==> r.value[i] as int < 256
  {
    var d := StripPadding(RemoveWhitespace(s));
    if |d| % 4 == 1 then None
    else
      match Sextets(d)
      case None => None
      case Some(v) => Some(ByteChars(DecodeSextets(v)))
  }

  /** `Uint8Array.from(codes)`: each character code reduced modulo 256. */
  function CharCodes(raw: string): (r: seq<byte>)
    ensures |r| == |raw|
  {
    seq(|raw|, i requires 0 <= i < |raw| => (raw[i] as int) % 256)
  }

  // ---------------------------------------------------------------------------
  // urlBase64ToUint8Array of src/scripts/index.js; `None` is the exception
  // that `atob` raises.

  function UrlBase64ToBytes(s: string): Option<seq<byte>>
  {
    match Atob(ToStdAlphabet(Padded(s)))
    case None => None
    case Some(raw) => Some(CharCodes(raw))
  }

  /** Every byte of the result is the code of the decoded character at that place. */
  lemma UrlBase64ToBytesCodes(s: string)
    ensures Atob(ToStdAlphabet(Padded(s))).Some? <==> UrlBase64ToBytes(s).Some?
    ensures UrlBase64ToBytes(s).Some? ==>
      var raw := Atob(ToStdAlphabet(Padded(s))).value;
      |UrlBase64ToBytes(s).value| == |raw| &&
      forall i :: 0 <= i < |raw| ==> UrlBase64ToBytes(s).value[i] == raw[i] as int
  {
  }

  /** A string of length 1 modulo 4 can never be a key: `atob` rejects it. */
  lemma LengthOneModFourRejected(s: string)
    requires |s| % 4 == 1 && forall i :: 0 <= i < |s| ==> !IsAsciiWhitespace(s[i])
    ensures UrlBase64ToBytes(s) == None
  {
    PaddedThreeTimes(s);
    TripleEqualsRejected(ToStdAlphabet(Padded(s)));
  }

  /** Padding a string of length 1 modulo 4 appends `===`. */
  lemma PaddedThreeTimes(s: string)
    requires |s| % 4 == 1 && forall i :: 0 <= i < |s| ==> !IsAsciiWhitespace(s[i])
    ensures var t := ToStdAlphabet(Padded(s));
      && |t| % 4 == 0 && |t| >= 3 && t[|t| - 1] == '=' && t[|t| - 2] == '=' && t[|t| - 3] == '='
      && forall i :: 0 <= i < |t| ==> !IsAsciiWhitespace(t[i])
  {
    var p := Padded(s);
    assert PaddingCount(|s|) == 3 && |p| == |s| + 3;
    assert forall i :: |s| <= i < |p| ==> p[i] == '=';
    assert forall i :: 0 <= i < |s| ==> p[i] == s[i];
  }

  /** `atob` rejects a whitespace-free string that ends in three `=`. */
  lemma TripleEqualsRejected(t: string)
    requires |t| % 4 == 0 && |t| >= 3 && t[|t| - 1] == '=' && t[|t| - 2] == '=' && t[|t| - 3] == '='
    requires forall i :: 0 <= i < |t| ==> !IsAsciiWhitespace(t[i])
    ensures Atob(t) == None
  {
    NoWhitespaceUnchanged(t);
    assert t[|t| - 2..] == "==";
    var d := StripPadding(t);
    assert d == t[..|t| - 2];
    assert StdValue(d[|d| - 1]).None?;
  }

  // ---------------------------------------------------------------------------
  // The encoder: unpadded base64url of section 5 of RFC 4648

  function EncodeSextets(b: seq<byte>): (r: seq<sextet>)
    ensures |r| == 4 * (|b| / 3) + (if |b| % 3 == 0 then 0 else |b| % 3 + 1)
    decreases |b|
  {
    if |b| == 0 then []
    else if |b| == 1 then EncodeOne(b[0])
    else if |b| == 2 then EncodeTwo(b[0], b[1])
    else Group(b[0], b[1], b[2]) + EncodeSextets(b[3..])
  }

  function EncodeOne(x: byte): (g: seq<sextet>)
    ensures |g| == 2
  {
    [x / 4, (x % 4) * 16]
  }

  function EncodeTwo(x: byte, y: byte): (g: seq<sextet>)
    ensures |g| == 3
  {
    [x / 4, (x % 4) * 16 + y / 16, (y % 16) * 4]
  }

  /** The four digits of three bytes. */
  function Group(x: byte, y: byte, z: byte): (g: seq<sextet>)
    ensures |g| == 4
  {
    [x / 4, (x % 4) * 16 + y / 16, (y % 16) * 4 + z / 64, z % 64]
  }

  function EncodeUrl(b: seq<byte>): (r: string)
    ensures |r| % 4 != 1
  {
    var v := EncodeSextets(b);
    seq(|v|, i requires 0 <= i < |v| => UrlChar(v[i]))
  }

  lemma ThreeBytes(x: byte, y: byte, z: byte)
    ensures var g := Group(x, y, z); DecodeFour(g[0], g[1], g[2], g[3]) == [x, y, z]
  {
  }

  lemma TwoBytes(x: byte, y: byte)
    ensures var g := EncodeTwo(x, y); DecodeThree(g[0], g[1], g[2]) == [x, y]
  {
  }

  lemma OneByte(x: byte)
    ensures var g := EncodeOne(x); DecodeTwo(g[0], g[1]) == [x]
  {
  }

  /** A full group of four digits decodes to its three bytes ahead of the rest. */
  lemma DecodeFullGroup(g: seq<sextet>, rest: seq<sextet>)
    requires |g| == 4 && |rest| % 4 != 1
    ensures DecodeSextets(g + rest) == DecodeFour(g[0], g[1], g[2], g[3]) + DecodeSextets(rest)
  {
    var v := g + rest;
    assert v[..4] == g && v[4..] == rest;
  }

  lemma {:induction false} DecodeEncodeSextets(b: seq<byte>)
    ensures DecodeSextets(EncodeSextets(b)) == b
    decreases |b|
  {
    if |b| == 0 {
    } else if |b| == 1 {
      OneByte(b[0]);
    } else if |b| == 2 {
      TwoBytes(b[0], b[1]);
    } else {
      var rest := EncodeSextets(b[3..]);
      DecodeFullGroup(Group(b[0], b[1], b[2]), rest);
      ThreeBytes(b[0], b[1], b[2]);
      DecodeEncodeSextets(b[3..]);
      assert b == [b[0], b[1], b[2]] + b[3..];
    }
  }

  lemma UrlCharToStd(v: sextet)
    ensures StdValue(ToStdChar(UrlChar(v))) == Some(v)
    ensures ToStdChar(UrlChar(v)) != '=' && !IsAsciiWhitespace(ToStdChar(UrlChar(v)))
  {
  }

  lemma {:induction false} NoWhitespaceUnchanged(s: string)
    requires forall i :: 0 <= i < |s| ==> !IsAsciiWhitespace(s[i])
    ensures RemoveWhitespace(s) == s
    decreases |s|
  {
    if s != [] {
      NoWhitespaceUnchanged(s[1..]);
      assert s == [s[0]] + s[1..];
    }
  }

  /** The translated encoding spells the encoder's digits in the standard alphabet. */
  lemma EncodedInStdAlphabet(b: seq<byte>)
    ensures var std := ToStdAlphabet(EncodeUrl(b));
      && Sextets(std) == Some(EncodeSextets(b))
      && forall i :: 0 <= i < |std| ==> std[i] != '=' && !IsAsciiWhitespace(std[i])
  {
    var v := EncodeSextets(b);
    var std := ToStdAlphabet(EncodeUrl(b));
    forall i | 0 <= i < |std|
      ensures StdValue(std[i]) == Some(v[i]) && std[i] != '=' && !IsAsciiWhitespace(std[i])
    {
      UrlCharToStd(v[i]);
    }
    assert Sextets(std).Some?;
    assert Sextets(std).value == v;
  }

  lemma PaddedThenTranslated(s: string)
    ensures ToStdAlphabet(Padded(s)) == ToStdAlphabet(s) + Repeat('=', PaddingCount(|s|))
  {
  }

  /** Stripping removes exactly the padding that was added to a padding-free string. */
  lemma StripAddedPadding(std: string)
    requires |std| % 4 != 1
    requires forall i :: 0 <= i < |std| ==> std[i] != '='
    ensures StripPadding(std + Repeat('=', PaddingCount(|std|))) == std
  {
    var p := PaddingCount(|std|);
    var t := std + Repeat('=', p);
    if p == 2 {
      assert t[|t| - 2..] == "==";
    } else if p == 1 {
      assert t[|t| - 2] == std[|std| - 1];
      assert t[|t| - 2..] != "==";
    } else {
      assert t == std;
      assert |t| >= 1 ==> t[|t| - 1] == std[|std| - 1];
    }
  }

  /** `atob` of the padded, translated encoding gives the bytes as characters. */
  lemma AtobOfEncoding(b: seq<byte>)
    ensures Atob(ToStdAlphabet(Padded(EncodeUrl(b)))) == Some(ByteChars(b))
  {
    var s := EncodeUrl(b);
    var std := ToStdAlphabet(s);
    var t := ToStdAlphabet(Padded(s));
    EncodedInStdAlphabet(b);
    PaddedThenTranslated(s);
    assert forall i :: 0 <= i < |t| ==> !IsAsciiWhitespace(t[i]);
    NoWhitespaceUnchanged(t);
    StripAddedPadding(std);
    DecodeEncodeSextets(b);
  }

  lemma CharCodesOfByteChars(b: seq<byte>)
    ensures CharCodes(ByteChars(b)) == b
  {
  }

  /** Decoding the unpadded URL-safe encoding of any byte sequence gives it back. */
  lemma RoundTrip(b: seq<byte>)
    ensures UrlBase64ToBytes(EncodeUrl(b)) == Some(b)
  {
    AtobOfEncoding(b);
    CharCodesOfByteChars(b);
  }
}
