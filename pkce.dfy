/** The two PKCE helpers of the page: the random alphanumeric string used
    for the code verifier and the state, and the conversion of a standard
    base64 digest into the unpadded base64url code challenge (section 5 of
    RFC 4648, as section 4.2 of RFC 7636 asks for the S256 method).
    `Math.random` becomes a sequence of draws, each an index into the
    alphabet; SHA-256 and `btoa` are parameters. */
module Pkce {
  import opened Text

  /** The 62 characters `generateRandomString` draws from, in its order:
      the upper-case letters, the lower-case letters, the digits. */
  const Alphabet: string := Upper + Lower + Digits
  const Upper: string := "ABCDEFGHIJKLMNOPQRSTUVWXYZ"
  const Lower: string := "abcdefghijklmnopqrstuvwxyz"
  const Digits: string := "0123456789"

  /** One value of `Math.floor(Math.random() * 62)`. */
  type Draw = d: nat | d < 62

  predicate IsAsciiAlphanumeric(c: char) {
    'A' <= c <= 'Z' || 'a' <= c <= 'z' || '0' <= c <= '9'
  }

  /** `n` consecutive characters starting at `first`. */
  function Run(first: char, n: nat): (s: string)
    requires first as int + n <= 0xD800
    ensures |s| == n && forall i :: 0 <= i < n ==> s[i] as int == first as int + i
  {
    seq(n, i requires 0 <= i < n => (first as int + i) as char)
  }

  /** Each part of the alphabet is a run of consecutive character codes. */
  lemma AlphabetRuns()
    ensures Upper == Run('A', 26) && Lower == Run('a', 26) && Digits == Run('0', 10)
  {
  }

  /** The alphabet has 62 characters and holds exactly the ASCII letters and digits. */
  lemma AlphabetIsAlphanumeric()
    ensures |Alphabet| == 62
    ensures forall i :: 0 <= i < |Alphabet| ==> IsAsciiAlphanumeric(Alphabet[i])
    ensures forall c :: IsAsciiAlphanumeric(c) ==> c in Alphabet
  {
    AlphabetRuns();
    var upper, lower, digits := Upper, Lower, Digits;
    forall i | 0 <= i < |Alphabet| ensures IsAsciiAlphanumeric(Alphabet[i]) {
      if i < 26 {
        assert Alphabet[i] == upper[i];
      } else if i < 52 {
        assert Alphabet[i] == lower[i - 26];
      } else {
        assert Alphabet[i] == digits[i - 52];
      }
    }
    forall c | IsAsciiAlphanumeric(c) ensures c in Alphabet {
      var i := if 'A' <= c <= 'Z' then c as int - 'A' as int
               else if 'a' <= c <= 'z' then 26 + c as int - 'a' as int
               else 52 + c as int - '0' as int;
      assert Alphabet[i] == c;
    }
  }

  /** The string a sequence of draws picks out of the alphabet. */
  function Pick(draws: seq<Draw>): (s: string)
    ensures |s| == |draws|
  {
    seq(|draws|, i requires 0 <= i < |draws| => Alphabet[draws[i]])
  }

  /** `generateRandomString(length)`, drawing its characters from `draws`. */
  method GenerateRandomString(length: nat, draws: seq<Draw>) returns (text: string)
    requires |draws| == length
    ensures |text| == length
    ensures text == Pick(draws)
    ensures forall i :: 0 <= i < |text| ==> text[i] in Alphabet
  {
    text := "";
    var possible := Alphabet;
    for i := 0 to length
      invariant text == Pick(draws[..i])
    {
      text := text + [possible[draws[i]]];
      assert draws[..i + 1][..i] == draws[..i];
    }
    assert draws[..length] == draws;
  }

  predicate IsUnreserved(c: char) {
    IsAsciiAlphanumeric(c) || c == '-' || c == '.' || c == '_' || c == '~'
  }

  /** A code verifier as section 4.1 of RFC 7636 defines it: 43 to 128
      unreserved characters. */
  predicate IsCodeVerifier(s: string) {
    43 <= |s| <= 128 && forall i :: 0 <= i < |s| ==> IsUnreserved(s[i])
  }

  /** 64 characters drawn from the alphabet make a valid code verifier. */
  lemma PickIsVerifier(draws: seq<Draw>)
    requires |draws| == 64
    ensures IsCodeVerifier(Pick(draws))
  {
    AlphabetIsAlphanumeric();
    var s := Pick(draws);
    forall i | 0 <= i < |s| ensures IsUnreserved(s[i]) {
      assert s[i] == Alphabet[draws[i]];
    }
  }

  /** `.replace(/=/g, '')`. */
  function RemoveAll(s: string, c: char): (r: string)
    ensures forall i :: 0 <= i < |r| ==> r[i] != c
    ensures |r| == |s| - Count(s, c)
  {
    if |s| == 0 then ""
    else (if s[0] == c then "" else [s[0]]) + RemoveAll(s[1..], c)
  }

  /** `.replace(/x/g, 'y')` for one character `x`. */
  function ReplaceAll(s: string, x: char, y: char): (r: string)
    ensures |r| == |s|
    ensures forall i :: 0 <= i < |s| ==> r[i] == if s[i] == x then y else s[i]
  {
    if |s| == 0 then ""
    else [if s[0] == x then y else s[0]] + ReplaceAll(s[1..], x, y)
  }

  /** The post-processing of `generateCodeChallenge`, as the source writes it. */
  function UrlSafe(b64: string): string {
    ReplaceAll(ReplaceAll(RemoveAll(b64, '='), '+', '-'), '/', '_')
  }

  /** The character base64url writes for a base64 character. */
  function UrlChar(c: char): char {
    if c == '+' then '-' else if c == '/' then '_' else c
  }

  /** Base64url without padding, in one pass: each `=` dropped, each
      other character translated, order kept. */
  function ToBase64Url(b64: string): (r: string)
    ensures |r| <= |b64|
  {
    if |b64| == 0 then ""
    else (if b64[0] == '=' then "" else [UrlChar(b64[0])]) + ToBase64Url(b64[1..])
  }

  lemma {:induction false} UrlSafeIsBase64Url(b64: string)
    ensures UrlSafe(b64) == ToBase64Url(b64)
  {
    if |b64| > 0 {
      UrlSafeIsBase64Url(b64[1..]);
      var head := if b64[0] == '=' then "" else [b64[0]];
      var tail := RemoveAll(b64[1..], '=');
      assert RemoveAll(b64, '=') == head + tail;
      ReplaceConcat(head, tail, '+', '-');
      ReplaceConcat(ReplaceAll(head, '+', '-'), ReplaceAll(tail, '+', '-'), '/', '_');
    }
  }

  lemma ReplaceConcat(a: string, b: string, x: char, y: char)
    ensures ReplaceAll(a + b, x, y) == ReplaceAll(a, x, y) + ReplaceAll(b, x, y)
  {
    var whole, parts := ReplaceAll(a + b, x, y), ReplaceAll(a, x, y) + ReplaceAll(b, x, y);
    forall i | 0 <= i < |whole| ensures whole[i] == parts[i] {
      if i < |a| {
        assert (a + b)[i] == a[i];
      } else {
        assert (a + b)[i] == b[i - |a|];
      }
    }
  }

  /** The challenge text has no padding and none of the two characters
      base64url replaces. */
  lemma {:induction false} NoForbiddenChars(b64: string)
    ensures forall i :: 0 <= i < |ToBase64Url(b64)| ==>
      ToBase64Url(b64)[i] !in {'=', '+', '/'}
  {
    if |b64| > 0 {
      NoForbiddenChars(b64[1..]);
    }
  }

  /** The length drops by exactly the number of `=`. */
  lemma {:induction false} LengthWithoutPadding(b64: string)
    ensures |ToBase64Url(b64)| == |b64| - Count(b64, '=')
  {
    if |b64| > 0 {
      LengthWithoutPadding(b64[1..]);
    }
  }

  /** Text without padding is translated character by character, in order. */
  lemma {:induction false} TranslatesInOrder(s: string)
    requires forall i :: 0 <= i < |s| ==> s[i] != '='
    ensures |ToBase64Url(s)| == |s|
    ensures forall i :: 0 <= i < |s| ==> ToBase64Url(s)[i] == UrlChar(s[i])
  {
    if |s| > 0 {
      TranslatesInOrder(s[1..]);
      assert ToBase64Url(s) == [UrlChar(s[0])] + ToBase64Url(s[1..]);
    }
  }

  /** Applying the conversion to its own output changes nothing. */
  lemma {:induction false} Idempotent(b64: string)
    ensures ToBase64Url(ToBase64Url(b64)) == ToBase64Url(b64)
  {
    NoForbiddenChars(b64);
    FixedPoint(ToBase64Url(b64));
  }

  lemma {:induction false} FixedPoint(s: string)
    requires forall i :: 0 <= i < |s| ==> s[i] !in {'=', '+', '/'}
    ensures ToBase64Url(s) == s
  {
    if |s| > 0 {
      FixedPoint(s[1..]);
      assert s == [s[0]] + s[1..];
    }
  }

  predicate IsBase64Char(c: char) {
    IsAsciiAlphanumeric(c) || c == '+' || c == '/' || c == '='
  }

  predicate IsBase64UrlChar(c: char) {
    IsAsciiAlphanumeric(c) || c == '-' || c == '_'
  }

  /** Standard base64 text becomes text over the base64url alphabet of
      section 5 of RFC 4648, with the padding gone. */
  lemma {:induction false} UrlAlphabet(b64: string)
    requires forall i :: 0 <= i < |b64| ==> IsBase64Char(b64[i])
    ensures forall i :: 0 <= i < |ToBase64Url(b64)| ==> IsBase64UrlChar(ToBase64Url(b64)[i])
  {
    if |b64| > 0 {
      UrlAlphabet(b64[1..]);
    }
  }

  /** The S256 code challenge of section 4.2 of RFC 7636,
      BASE64URL(SHA256(ASCII(verifier))), with the digest and `btoa` given. */
  function CodeChallenge(verifier: string, sha256: string -> seq<bv8>, btoa: seq<bv8> -> string): string {
    UrlSafe(btoa(sha256(verifier)))
  }
}
