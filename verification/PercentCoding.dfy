/** Util::UrlEncode and Util::UrlDecode (percent-encoding, sections 2.1 and 2.3 of
    RFC 3986, and '+' for a space in query strings). */
module PercentCoding {
  predicate IsByte(c: char) { (c as int) < 256 }

  predicate AllBytes(s: string) { forall i :: 0 <= i < |s| ==> IsByte(s[i]) }

  predicate IsUnreserved(c: char) {
    '0' <= c <= '9' || 'a' <= c <= 'z' || 'A' <= c <= 'Z' || c == '.' || c == '-' || c == '_' || c == '~'
  }

  predicate IsUpperHex(c: char) { '0' <= c <= '9' || 'A' <= c <= 'F' }

  function UpperHex(n: nat): (c: char)
    requires n < 16
    ensures IsUpperHex(c) && HexToI(c) == n
  {
    if n < 10 then ((n + 48) as char) else ((n + 55) as char)
  }

  /** HEXTOI */
  function HexToI(c: char): (n: int)
    ensures -1 <= n < 16
  {
    if '0' <= c <= '9' then (c as int) - 48
    else if 'a' <= c <= 'f' then (c as int) - 97 + 10
    else if 'A' <= c <= 'F' then (c as int) - 65 + 10
    else -1
  }

  /** snprintf(tmp, 4, "%%%02X", c) on a signed char: a negative one prints as eight
      digits, cut after "%FF". */
  function Escape(c: char): (e: string)
    requires IsByte(c)
    ensures |e| == 3 && e[0] == '%' && IsUpperHex(e[1]) && IsUpperHex(e[2])
  {
    var n := c as int;
    if n < 128 then ['%', UpperHex(n / 16), UpperHex(n % 16)] else "%FF"
  }

  function EncodeChar(c: char, spaceToPlus: bool): string
    requires IsByte(c)
  {
    if IsUnreserved(c) then [c] else if c == ' ' && spaceToPlus then "+" else Escape(c)
  }

  function Encoded(s: string, spaceToPlus: bool): string
    requires AllBytes(s)
  {
    if s == "" then "" else EncodeChar(s[0], spaceToPlus) + Encoded(s[1..], spaceToPlus)
  }

  /** `(char)(v1 * 16 + v2)` */
  function Unescape(hi: char, lo: char): (c: char)
    ensures IsByte(c)
  {
    ((HexToI(hi) * 16 + HexToI(lo) + 256) % 256) as char
  }

  function Decoded(s: string, plusToSpace: bool): string {
    if s == "" then ""
    else if s[0] == '+' && plusToSpace then " " + Decoded(s[1..], plusToSpace)
    else if s[0] == '%' && |s| > 2 then [Unescape(s[1], s[2])] + Decoded(s[3..], plusToSpace)
    else [s[0]] + Decoded(s[1..], plusToSpace)
  }

  lemma EncodedStep(pre: string, s: string, i: nat, mode: bool)
    requires AllBytes(s) && i < |s|
    ensures pre + Encoded(s[i..], mode) == pre + EncodeChar(s[i], mode) + Encoded(s[i + 1..], mode)
  {
    hide EncodeChar;
    assert s[i..][1..] == s[i + 1..];
  }

  method UrlEncode(url: string, convertSpaceToPlus: bool) returns (res: string)
    requires AllBytes(url)
    ensures res == Encoded(url, convertSpaceToPlus)
  {
    hide Escape, IsUnreserved, Encoded;
    res := "";
    EncodedEmpty(convertSpaceToPlus);
    assert url[0..] == url && url[|url|..] == "";
    for i := 0 to |url|
      invariant res + Encoded(url[i..], convertSpaceToPlus) == Encoded(url, convertSpaceToPlus)
    {
      var c := url[i];
      EncodedStep(res, url, i, convertSpaceToPlus);
      if IsUnreserved(c) {
        res := res + [c];
        continue;
      }
      if c == ' ' && convertSpaceToPlus {
        res := res + "+";
        continue;
      }
      res := res + Escape(c);
    }
  }

  lemma EncodedEmpty(mode: bool)
    ensures Encoded("", mode) == "" && Decoded("", mode) == ""
  {
  }

  lemma DecodedStep(pre: string, s: string, i: nat, mode: bool)
    requires i < |s|
    ensures var (piece, n) :=
        if s[i] == '+' && mode then (" ", 1)
        else if s[i] == '%' && i + 2 < |s| then ([Unescape(s[i + 1], s[i + 2])], 3) else ([s[i]], 1);
      pre + Decoded(s[i..], mode) == pre + piece + Decoded(s[i + n..], mode)
  {
    hide Unescape;
    assert s[i..][1..] == s[i + 1..];
    if i + 2 < |s| {
      assert s[i..][3..] == s[i + 3..];
    }
  }

  method UrlDecode(url: string, convertPlusToSpace: bool) returns (res: string)
    ensures res == Decoded(url, convertPlusToSpace)
  {
    hide Unescape, Decoded;
    res := "";
    EncodedEmpty(convertPlusToSpace);
    assert url[0..] == url && url[|url|..] == "";
    var i := 0;
    while i < |url|
      invariant i <= |url|
      invariant res + Decoded(url[i..], convertPlusToSpace) == Decoded(url, convertPlusToSpace)
    {
      var c := url[i];
      DecodedStep(res, url, i, convertPlusToSpace);
      if c == '+' && convertPlusToSpace {
        res := res + " ";
      } else if c == '%' && i + 2 < |url| {
        res := res + [Unescape(url[i + 1], url[i + 2])];
        i := i + 2;
      } else {
        res := res + [c];
      }
      i := i + 1;
    }
  }

  // ----- The round trip

  /** What an encoded byte decodes to. */
  function Kept(c: char): char {
    if (c as int) < 128 then c else 255 as char
  }

  lemma DecodeChar(c: char, rest: string, mode: bool)
    requires IsByte(c)
    ensures Decoded(EncodeChar(c, mode) + rest, mode) == [Kept(c)] + Decoded(rest, mode)
  {
    var e := EncodeChar(c, mode);
    assert (e + rest)[|e|..] == rest;
    if !IsUnreserved(c) && !(c == ' ' && mode) {
      EscapeRound(c);
    }
  }

  lemma EscapeRound(c: char)
    requires IsByte(c)
    ensures Unescape(Escape(c)[1], Escape(c)[2]) == Kept(c)
  {
    var n := c as int;
    if n < 128 {
      assert n == n / 16 * 16 + n % 16;
    }
  }

  lemma {:induction false} DecodeEncode(s: string, mode: bool)
    requires AllBytes(s)
    ensures Decoded(Encoded(s, mode), mode) == seq(|s|, i requires 0 <= i < |s| => Kept(s[i]))
  {
    if s != "" {
      DecodeEncode(s[1..], mode);
      DecodeChar(s[0], Encoded(s[1..], mode), mode);
    }
  }

  /** Decoding inverts encoding exactly on strings of bytes 0..127 and 255: the escape of
      every byte above 127 is "%FF". */
  lemma RoundTrip(s: string, mode: bool)
    requires AllBytes(s)
    ensures Decoded(Encoded(s, mode), mode) == s <==>
      forall i :: 0 <= i < |s| ==> (s[i] as int) < 128 || (s[i] as int) == 255
  {
    DecodeEncode(s, mode);
    var r := Decoded(Encoded(s, mode), mode);
    if forall i :: 0 <= i < |s| ==> (s[i] as int) < 128 || (s[i] as int) == 255 {
      assert r == s;
    } else {
      var i :| 0 <= i < |s| && !((s[i] as int) < 128 || (s[i] as int) == 255);
      assert r[i] != s[i];
    }
  }

  // ----- Every spelling is decoded

  /** The digits 0 to 15, in either letter case. */
  const DIGITS: string := "0123456789abcdef0123456789ABCDEF"

  predicate IsDigitFor(c: char, n: nat)
    requires n < 16
  {
    c == DIGITS[n] || c == DIGITS[16 + n]
  }

  lemma DigitValue(c: char, n: nat)
    requires n < 16 && IsDigitFor(c, n)
    ensures HexToI(c) == n
  {
  }

  /** How a byte may be written: as itself, unless that means something else; as an escape
      with digits in either case; or, for a space in its mode, as '+'. */
  predicate Writes(e: string, c: char, mode: bool) {
    (e == [c] && c != '%' && !(mode && c == '+')) || (e == "+" && c == ' ' && mode) ||
    ((c as int) < 256 && |e| == 3 && e[0] == '%' && IsDigitFor(e[1], (c as int) / 16) && IsDigitFor(e[2], (c as int) % 16))
  }

  function Written(es: seq<string>): string { if es == [] then "" else es[0] + Written(es[1..]) }

  lemma DecodeOne(e: string, c: char, rest: string, mode: bool)
    requires Writes(e, c, mode)
    ensures Decoded(e + rest, mode) == [c] + Decoded(rest, mode)
  {
    hide Unescape, IsDigitFor;
    assert (e + rest)[|e|..] == rest;
    if |e| == 3 { EscapeIs(e[1], e[2], c); }
  }

  lemma EscapeIs(d: char, e: char, c: char)
    requires (c as int) < 256 && IsDigitFor(d, (c as int) / 16) && IsDigitFor(e, (c as int) % 16)
    ensures Unescape(d, e) == c
  {
    var n := c as int;
    DigitValue(d, n / 16);
    DigitValue(e, n % 16);
    assert n == n / 16 * 16 + n % 16;
    assert (n / 16 * 16 + n % 16 + 256) % 256 == n;
  }

  /** Whatever way each byte of a text is written, decoding gives the text. */
  lemma {:induction false} DecodeWritten(es: seq<string>, s: string, mode: bool)
    requires |es| == |s| && forall i :: 0 <= i < |s| ==> Writes(es[i], s[i], mode)
    ensures Decoded(Written(es), mode) == s
  {
    hide Writes, Decoded;
    EncodedEmpty(mode);
    if s != "" {
      DecodeWritten(es[1..], s[1..], mode);
      DecodeOne(es[0], s[0], Written(es[1..]), mode);
    }
  }

  /** An encoding is made of unreserved characters, whole escapes and, in its mode, '+'. */
  predicate IsEncoding(e: string, mode: bool) {
    e == "" ||
    (if e[0] == '%' then |e| > 2 && IsUpperHex(e[1]) && IsUpperHex(e[2]) && IsEncoding(e[3..], mode)
     else (IsUnreserved(e[0]) || (mode && e[0] == '+')) && IsEncoding(e[1..], mode))
  }

  lemma {:induction false} EncodedIs(s: string, mode: bool)
    requires AllBytes(s)
    ensures IsEncoding(Encoded(s, mode), mode)
  {
    if s != "" {
      EncodedIs(s[1..], mode);
      var e, rest := EncodeChar(s[0], mode), Encoded(s[1..], mode);
      assert (e + rest)[|e|..] == rest;
    }
  }

  /** Decoding leaves text without escapes alone. */
  lemma {:induction false} DecodePlain(s: string)
    requires '%' !in s
    ensures Decoded(s, false) == s
  {
    if s != "" {
      DecodePlain(s[1..]);
    }
  }
}
