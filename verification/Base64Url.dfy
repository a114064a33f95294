/** The Gmail plugin's base64url decoding: section 5 of RFC 4648 mapped onto section 4. */
module Base64Url {
  import opened Wrappers

  type Byte = b: nat | b < 256
  type Sextet = v: nat | v < 64

  datatype Error = NotAscii | OneCharacterOver | IncorrectPadding

  // ---------------------------------------------------------------- alphabets

  /** The base64 alphabet; the last two characters differ in base64url. */
  function Character(v: Sextet, c62: char, c63: char): char {
    if v < 26 then ('A' as int + v) as char
    else if v < 52 then ('a' as int + v - 26) as char
    else if v < 62 then ('0' as int + v - 52) as char
    else if v == 62 then c62
    else c63
  }

  function UrlChar(v: Sextet): char { Character(v, '-', '_') }

  function StdChar(v: Sextet): char { Character(v, '+', '/') }

  function StdValue(c: char): Option<Sextet> {
    if 'A' <= c <= 'Z' then Some(c as int - 'A' as int)
    else if 'a' <= c <= 'z' then Some(c as int - 'a' as int + 26)
    else if '0' <= c <= '9' then Some(c as int - '0' as int + 52)
    else if c == '+' then Some(62)
    else if c == '/' then Some(63)
    else None
  }

  lemma StdCharHasValue(v: Sextet)
    ensures StdValue(StdChar(v)) == Some(v) && StdChar(v) != '='
  {
  }

  // ---------------------------------------------------------------- encoding, as the RFC defines it

  function Chars(vs: seq<Sextet>, url: bool): (s: string)
    ensures |s| == |vs|
  {
    seq(|vs|, i requires 0 <= i < |vs| => if url then UrlChar(vs[i]) else StdChar(vs[i]))
  }

  function Padding(n: nat, padded: bool): string {
    if !padded then "" else if n == 1 then "==" else "="
  }

  /** Three bytes become four characters; a final group of one or two bytes becomes two or three,
    * with or without padding. */
  function Encode(bs: seq<Byte>, url: bool, padded: bool): string {
    if |bs| == 0 then ""
    else if |bs| == 1 then
      Chars([bs[0] / 4, bs[0] % 4 * 16], url) + Padding(1, padded)
    else if |bs| == 2 then
      Chars([bs[0] / 4, bs[0] % 4 * 16 + bs[1] / 16, bs[1] % 16 * 4], url) + Padding(2, padded)
    else
      Chars([bs[0] / 4, bs[0] % 4 * 16 + bs[1] / 16, bs[1] % 16 * 4 + bs[2] / 64, bs[2] % 64], url)
      + Encode(bs[3..], url, padded)
  }

  /** Examples of section 10 of RFC 4648, and two texts that show the alphabets apart. */
  lemma RfcExamples()
    ensures Encode([102], false, true) == "Zg==" && Encode([102], true, false) == "Zg"
    ensures Encode([102, 111], false, true) == "Zm8="
    ensures Encode([102, 111, 111], false, true) == "Zm9v"
    ensures Encode([251, 255, 254], false, true) == "+//+" && Encode([251, 255, 254], true, false) == "-__-"
  {
    hide *;
    OneByte(102, false, true);
    OneByte(102, true, false);
    TwoBytes(102, 111);
    OneGroup(102, 111, 111, false, true);
    OneGroup(251, 255, 254, false, true);
    OneGroup(251, 255, 254, true, false);
    ExampleCharacters();
  }

  lemma ExampleCharacters()
    ensures Chars([25, 32], false) == "Zg" && Chars([25, 32], true) == "Zg"
    ensures Chars([25, 38, 60], false) == "Zm8" && Chars([25, 38, 61, 47], false) == "Zm9v"
    ensures Chars([62, 63, 63, 62], false) == "+//+" && Chars([62, 63, 63, 62], true) == "-__-"
  {
    hide Chars;
    CharsAre([25, 32], false, "Zg");
    CharsAre([25, 32], true, "Zg");
    CharsAre([25, 38, 60], false, "Zm8");
    CharsAre([25, 38, 61, 47], false, "Zm9v");
    CharsAre([62, 63, 63, 62], false, "+//+");
    CharsAre([62, 63, 63, 62], true, "-__-");
  }

  lemma OneByte(a: Byte, url: bool, padded: bool)
    ensures Encode([a], url, padded) == Chars([a / 4, a % 4 * 16], url) + if padded then "==" else ""
  {
    hide Chars;
  }

  lemma TwoBytes(a: Byte, b: Byte)
    ensures Encode([a, b], false, true) == Chars([a / 4, a % 4 * 16 + b / 16, b % 16 * 4], false) + "="
  {
    hide Chars;
  }

  lemma CharsAre(vs: seq<Sextet>, url: bool, s: string)
    requires |s| == |vs| && forall i :: 0 <= i < |s| ==> s[i] == if url then UrlChar(vs[i]) else StdChar(vs[i])
    ensures Chars(vs, url) == s
  {
  }

  lemma OneGroup(a: Byte, b: Byte, c: Byte, url: bool, padded: bool)
    ensures Encode([a, b, c], url, padded) ==
            Chars([a / 4, a % 4 * 16 + b / 16, b % 16 * 4 + c / 64, c % 64], url)
  {
    hide Chars;
    assert [a, b, c][3..] == [];
  }

  // ---------------------------------------------------------------- decoding

  function Prepend(b: Byte, r: Result<seq<Byte>, Error>): Result<seq<Byte>, Error> {
    if r.Err? then r else Ok([b] + r.value)
  }

  /** The library's decoder, which does not validate: a character outside the alphabet is skipped,
    * padding counts once two characters of a group are there, and ends the text when it completes
    * the group.  `quad` is the position in the group, `left` the bits not yet used, `pads` the
    * padding since the last character. */
  function Scan(s: string, quad: nat, left: nat, pads: nat): Result<seq<Byte>, Error>
    requires quad < 4 && left < (if quad == 1 then 64 else if quad == 2 then 16 else if quad == 3 then 4 else 1)
  {
    if s == "" then
      if quad == 0 then Ok([]) else if quad == 1 then Err(OneCharacterOver) else Err(IncorrectPadding)
    else if s[0] == '=' then
      if quad >= 2 && quad + pads + 1 >= 4 then Ok([])
      else Scan(s[1..], quad, left, if quad >= 2 then pads + 1 else pads)
    else
      match StdValue(s[0])
      case None => Scan(s[1..], quad, left, pads)
      case Some(v) =>
        if quad == 0 then Scan(s[1..], 1, v, 0)
        else if quad == 1 then Prepend(left * 4 + v / 16, Scan(s[1..], 2, v % 16, 0))
        else if quad == 2 then Prepend(left * 16 + v / 4, Scan(s[1..], 3, v % 4, 0))
        else Prepend(left * 64 + v, Scan(s[1..], 0, 0, 0))
  }

  predicate IsAscii(s: string) {
    forall i :: 0 <= i < |s| ==> s[i] as int < 128
  }

  /** base64.b64decode of a str. */
  function Decode(s: string): Result<seq<Byte>, Error> {
    if IsAscii(s) then Scan(s, 0, 0, 0) else Err(NotAscii)
  }

  /** s.replace("-", "+").replace("_", "/"). */
  function Translated(s: string): (r: string)
    ensures |r| == |s|
  {
    seq(|s|, i requires 0 <= i < |s| => if s[i] == '-' then '+' else if s[i] == '_' then '/' else s[i])
  }

  /** "=" * (-len(s) % 4). */
  function Pad(n: nat): (p: string)
    ensures (n + |p|) % 4 == 0 && |p| < 4
  {
    var k := (-(n as int)) % 4;
    if k == 0 then "" else if k == 1 then "=" else if k == 2 then "==" else "==="
  }

  /** _b64url_to_bytes. */
  function UrlToBytes(s: Option<string>): Result<seq<Byte>, Error> {
    if s.None? || s.value == "" then Ok([])
    else Decode(Translated(s.value) + Pad(|s.value|))
  }

  // ---------------------------------------------------------------- round trip

  lemma TranslatedAppend(s: string, t: string)
    ensures Translated(s + t) == Translated(s) + Translated(t)
  {
  }

  lemma TranslatedChars(vs: seq<Sextet>)
    ensures Translated(Chars(vs, true)) == Chars(vs, false)
  {
  }

  lemma TranslatedPadding(n: nat, padded: bool)
    ensures Translated(Padding(n, padded)) == Padding(n, padded)
  {
  }

  /** Replacing the two characters turns base64url into base64. */
  lemma {:induction false} TranslatedEncoding(bs: seq<Byte>, padded: bool)
    ensures Translated(Encode(bs, true, padded)) == Encode(bs, false, padded)
    decreases |bs|
  {
    hide Translated, Chars, Padding;
    if |bs| == 0 {
      assert Translated("") == "";
    } else if |bs| == 1 {
      var vs: seq<Sextet> := [bs[0] / 4, bs[0] % 4 * 16];
      TranslatedAppend(Chars(vs, true), Padding(1, padded));
      TranslatedChars(vs);
      TranslatedPadding(1, padded);
    } else if |bs| == 2 {
      var vs: seq<Sextet> := [bs[0] / 4, bs[0] % 4 * 16 + bs[1] / 16, bs[1] % 16 * 4];
      TranslatedAppend(Chars(vs, true), Padding(2, padded));
      TranslatedChars(vs);
      TranslatedPadding(2, padded);
    } else {
      var vs: seq<Sextet> := [bs[0] / 4, bs[0] % 4 * 16 + bs[1] / 16, bs[1] % 16 * 4 + bs[2] / 64, bs[2] % 64];
      TranslatedAppend(Chars(vs, true), Encode(bs[3..], true, padded));
      TranslatedChars(vs);
      TranslatedEncoding(bs[3..], padded);
    }
  }

  lemma PadOf(n: nat)
    ensures Pad(n) == if n % 4 == 0 then "" else if n % 4 == 3 then "=" else if n % 4 == 2 then "==" else "==="
  {
  }

  /** The computed padding is the padding the RFC asks for. */
  lemma {:induction false} PadCompletes(bs: seq<Byte>, padded: bool)
    ensures var s := Encode(bs, false, padded); s + Pad(|s|) == Encode(bs, false, true)
    ensures |Encode(bs, false, true)| % 4 == 0
    decreases |bs|
  {
    hide Chars, Pad;
    var s := Encode(bs, false, padded);
    if |bs| < 3 {
      PadOf(|s|);
    } else {
      PadCompletes(bs[3..], padded);
      PadGroup(s[..4], Encode(bs[3..], false, padded));
    }
  }

  lemma PadGroup(group: string, rest: string)
    requires |group| == 4
    ensures group + rest + Pad(|group + rest|) == group + (rest + Pad(|rest|))
  {
    PadOf(|group + rest|);
    PadOf(|rest|);
    assert |group + rest| % 4 == |rest| % 4;
  }

  /** One character of the alphabet moves the scan on. */
  lemma ScanCharacter(v: Sextet, rest: string, quad: nat, left: nat, pads: nat)
    requires quad < 4 && left < (if quad == 1 then 64 else if quad == 2 then 16 else if quad == 3 then 4 else 1)
    ensures Scan([StdChar(v)] + rest, quad, left, pads) ==
            if quad == 0 then Scan(rest, 1, v, 0)
            else if quad == 1 then Prepend(left * 4 + v / 16, Scan(rest, 2, v % 16, 0))
            else if quad == 2 then Prepend(left * 16 + v / 4, Scan(rest, 3, v % 4, 0))
            else Prepend(left * 64 + v, Scan(rest, 0, 0, 0))
  {
    StdCharHasValue(v);
    assert ([StdChar(v)] + rest)[1..] == rest;
  }

  lemma CharsSplit(vs: seq<Sextet>, rest: string)
    requires vs != []
    ensures Chars(vs, false) + rest == [StdChar(vs[0])] + (Chars(vs[1..], false) + rest)
  {
  }

  lemma TwoCharacters(v0: Sextet, v1: Sextet, rest: string)
    ensures Scan(Chars([v0, v1], false) + rest, 0, 0, 0) == Prepend(v0 * 4 + v1 / 16, Scan(rest, 2, v1 % 16, 0))
  {
    hide Scan, Chars, StdChar, Prepend;
    CharsSplit([v0, v1], rest);
    CharsSplit([v1], rest);
    EmptyChars(rest);
    assert [v0, v1][1..] == [v1] && [v1][1..] == [];
    ScanCharacter(v0, Chars([v1], false) + rest, 0, 0, 0);
    ScanCharacter(v1, rest, 1, v0, 0);
  }

  lemma ThirdCharacter(v: Sextet, rest: string, left: nat)
    requires left < 16
    ensures Scan(Chars([v], false) + rest, 2, left, 0) == Prepend(left * 16 + v / 4, Scan(rest, 3, v % 4, 0))
  {
    hide Scan, Chars, StdChar, Prepend;
    CharsSplit([v], rest);
    EmptyChars(rest);
    assert [v][1..] == [];
    ScanCharacter(v, rest, 2, left, 0);
  }

  lemma FourthCharacter(v: Sextet, rest: string, left: nat)
    requires left < 4
    ensures Scan(Chars([v], false) + rest, 3, left, 0) == Prepend(left * 64 + v, Scan(rest, 0, 0, 0))
  {
    hide Scan, Chars, StdChar, Prepend;
    CharsSplit([v], rest);
    EmptyChars(rest);
    assert [v][1..] == [];
    ScanCharacter(v, rest, 3, left, 0);
  }

  lemma CharsJoin(vs: seq<Sextet>, ws: seq<Sextet>, rest: string)
    ensures Chars(vs + ws, false) + rest == Chars(vs, false) + (Chars(ws, false) + rest)
  {
  }

  lemma ThreeCharacters(v0: Sextet, v1: Sextet, v2: Sextet, rest: string)
    ensures Scan(Chars([v0, v1, v2], false) + rest, 0, 0, 0) ==
            Prepend(v0 * 4 + v1 / 16, Prepend(v1 % 16 * 16 + v2 / 4, Scan(rest, 3, v2 % 4, 0)))
  {
    hide Scan, Chars, Prepend;
    assert [v0, v1, v2] == [v0, v1] + [v2];
    CharsJoin([v0, v1], [v2], rest);
    TwoCharacters(v0, v1, Chars([v2], false) + rest);
    ThirdCharacter(v2, rest, v1 % 16);
  }

  lemma FourCharacters(v0: Sextet, v1: Sextet, v2: Sextet, v3: Sextet, rest: string)
    ensures Scan(Chars([v0, v1, v2, v3], false) + rest, 0, 0, 0) ==
            Prepend(v0 * 4 + v1 / 16, Prepend(v1 % 16 * 16 + v2 / 4, Prepend(v2 % 4 * 64 + v3, Scan(rest, 0, 0, 0))))
  {
    hide Scan, Chars, Prepend;
    assert [v0, v1, v2, v3] == [v0, v1, v2] + [v3];
    CharsJoin([v0, v1, v2], [v3], rest);
    ThreeCharacters(v0, v1, v2, Chars([v3], false) + rest);
    FourthCharacter(v3, rest, v2 % 4);
  }

  lemma ScanThree(b0: Byte, b1: Byte, b2: Byte, rest: string)
    ensures Scan(Chars([b0 / 4, b0 % 4 * 16 + b1 / 16, b1 % 16 * 4 + b2 / 64, b2 % 64], false) + rest, 0, 0, 0)
            == Prepend(b0, Prepend(b1, Prepend(b2, Scan(rest, 0, 0, 0))))
  {
    hide Scan, Chars, Prepend;
    ThreeBytes(b0, b1, b2);
    FourCharacters(b0 / 4, b0 % 4 * 16 + b1 / 16, b1 % 16 * 4 + b2 / 64, b2 % 64, rest);
  }

  lemma EmptyChars(rest: string)
    ensures Chars([], false) + rest == rest
  {
  }

  lemma ThreeBytes(b0: Byte, b1: Byte, b2: Byte)
    ensures var v0, v1, v2, v3 := b0 / 4, b0 % 4 * 16 + b1 / 16, b1 % 16 * 4 + b2 / 64, b2 % 64;
      && v0 * 4 + v1 / 16 == b0 && v1 % 16 * 16 + v2 / 4 == b1 && v2 % 4 * 64 + v3 == b2
  {
  }

  lemma ScanTwo(b0: Byte, b1: Byte)
    ensures Scan(Chars([b0 / 4, b0 % 4 * 16 + b1 / 16, b1 % 16 * 4], false) + "=", 0, 0, 0) == Ok([b0, b1])
  {
    var v2 := b1 % 16 * 4;
    assert Scan("=", 3, v2 % 4, 0) == Ok([]);
    assert Prepend(b0, Prepend(b1, Ok([]))) == Ok([b0, b1]) by { assert [b0] + ([b1] + []) == [b0, b1]; }
    hide Scan, Chars, Prepend;
    ThreeBytes(b0, b1, 0);
    ThreeCharacters(b0 / 4, b0 % 4 * 16 + b1 / 16, v2, "=");
  }

  lemma ScanOne(b0: Byte)
    ensures Scan(Chars([b0 / 4, b0 % 4 * 16], false) + "==", 0, 0, 0) == Ok([b0])
  {
    var v1 := b0 % 4 * 16;
    assert Scan("==", 2, v1 % 16, 0) == Ok([]) by {
      assert "=="[1..] == "=";
      assert Scan("=", 2, v1 % 16, 1) == Ok([]);
    }
    assert Prepend(b0, Ok([])) == Ok([b0]) by { assert [b0] + [] == [b0]; }
    hide Scan, Chars, Prepend;
    ThreeBytes(b0, 0, 0);
    TwoCharacters(b0 / 4, v1, "==");
  }

  lemma {:induction false} ScanEncoding(bs: seq<Byte>)
    ensures Scan(Encode(bs, false, true), 0, 0, 0) == Ok(bs)
    decreases |bs|
  {
    hide Scan, Chars;
    if |bs| == 0 {
      ScanNothing();
    } else if |bs| == 1 {
      ScanOne(bs[0]);
      assert bs == [bs[0]];
    } else if |bs| == 2 {
      ScanTwo(bs[0], bs[1]);
      assert bs == [bs[0], bs[1]];
    } else {
      ScanThree(bs[0], bs[1], bs[2], Encode(bs[3..], false, true));
      ScanEncoding(bs[3..]);
      assert bs == [bs[0]] + ([bs[1]] + ([bs[2]] + bs[3..]));
    }
  }

  lemma ScanNothing()
    ensures Scan("", 0, 0, 0) == Ok([])
  {
  }

  lemma CharsAreAscii(vs: seq<Sextet>, url: bool)
    ensures IsAscii(Chars(vs, url))
  {
  }

  lemma {:induction false} EncodingIsAscii(bs: seq<Byte>, url: bool, padded: bool)
    ensures IsAscii(Encode(bs, url, padded))
    decreases |bs|
  {
    forall vs ensures IsAscii(Chars(vs, url)) { CharsAreAscii(vs, url); }
    hide Chars;
    if |bs| >= 3 {
      EncodingIsAscii(bs[3..], url, padded);
    }
  }

  /** Section 4: decoding a padded encoding gives the bytes back. */
  lemma DecodeEncode(bs: seq<Byte>)
    ensures Decode(Encode(bs, false, true)) == Ok(bs)
  {
    hide Scan, Encode;
    EncodingIsAscii(bs, false, true);
    ScanEncoding(bs);
  }

  /** Every byte string survives its base64url encoding, padded or not. */
  lemma UrlRoundTrip(bs: seq<Byte>, padded: bool)
    ensures UrlToBytes(Some(Encode(bs, true, padded))) == Ok(bs)
  {
    hide Decode, Pad, Translated;
    var s := Encode(bs, true, padded);
    TranslatedEncoding(bs, padded);
    PadCompletes(bs, padded);
    TranslatedLength(s);
    DecodeEncode(bs);
    if s == "" { assert bs == []; }
  }

  lemma TranslatedLength(s: string)
    ensures |Translated(s)| == |s|
  {
  }

  // ---------------------------------------------------------------- which texts decode

  /** The number of characters of the alphabet; the others are skipped. */
  function DataCount(s: string): nat {
    if s == "" then 0 else (if StdValue(s[0]).Some? then 1 else 0) + DataCount(s[1..])
  }

  lemma {:induction false} PaddingScan(n: nat, quad: nat, left: nat, pads: nat)
    requires quad < 4 && left < (if quad == 1 then 64 else if quad == 2 then 16 else if quad == 3 then 4 else 1)
    requires n < 4 && quad + pads < 4
    ensures Scan("==="[..n], quad, left, pads).Ok? <==> quad == 0 || (quad >= 2 && quad + pads + n >= 4)
    decreases n
  {
    if n > 0 {
      assert "==="[..n][1..] == "==="[..n - 1];
      if !(quad >= 2 && quad + pads + 1 >= 4) {
        PaddingScan(n - 1, quad, left, if quad >= 2 then pads + 1 else pads);
      }
    }
  }

  lemma NextQuad(quad: nat, d: nat)
    requires quad < 4
    ensures (quad + (1 + d)) % 4 == ((if quad == 3 then 0 else quad + 1) + d) % 4
  {
  }

  /** A text without padding characters, then n of them: whether it decodes depends on the characters
    * of the alphabet alone. */
  lemma {:induction false} ScanDecodesIff(s: string, n: nat, quad: nat, left: nat)
    requires quad < 4 && left < (if quad == 1 then 64 else if quad == 2 then 16 else if quad == 3 then 4 else 1)
    requires '=' !in s && n < 4
    ensures var q := (quad + DataCount(s)) % 4;
      Scan(s + "==="[..n], quad, left, 0).Ok? <==> q == 0 || (q >= 2 && q + n >= 4)
    decreases |s|
  {
    var t := s + "==="[..n];
    if s == "" {
      assert t == "==="[..n];
      PaddingScan(n, quad, left, 0);
    } else {
      assert t[0] == s[0] && t[1..] == s[1..] + "==="[..n];
      match StdValue(s[0])
      case None => ScanDecodesIff(s[1..], n, quad, left);
      case Some(v) =>
        NextQuad(quad, DataCount(s[1..]));
        if quad == 0 { ScanDecodesIff(s[1..], n, 1, v); }
        else if quad == 1 { ScanDecodesIff(s[1..], n, 2, v % 16); }
        else if quad == 2 { ScanDecodesIff(s[1..], n, 3, v % 4); }
        else { ScanDecodesIff(s[1..], n, 0, 0); }
    }
  }

  /** Exactly which texts without padding characters decode: with d characters of the alphabet, those
    * where d is a multiple of four, or the padding, computed from the whole length, completes the
    * last group. */
  lemma DecodesIff(s: string)
    requires IsAscii(s) && '=' !in s
    ensures var q, n := DataCount(Translated(s)) % 4, |Pad(|s|)|;
      UrlToBytes(Some(s)).Ok? <==> q == 0 || (q >= 2 && q + n >= 4)
  {
    var t := Translated(s);
    var n := |Pad(|s|)|;
    PadOf(|s|);
    assert Pad(|s|) == "==="[..n];
    assert IsAscii(t + Pad(|s|)) && '=' !in t;
    hide Scan;
    ScanDecodesIff(t, n, 0, 0);
    if s == "" { assert t == ""; }
  }

  predicate IsUrlChar(c: char) {
    StdValue(if c == '-' then '+' else if c == '_' then '/' else c).Some?
  }

  lemma {:induction false} AllData(s: string)
    requires forall i :: 0 <= i < |s| ==> IsUrlChar(s[i])
    ensures DataCount(Translated(s)) == |s|
    decreases |s|
  {
    if s != "" {
      assert Translated(s)[1..] == Translated(s[1..]);
      AllData(s[1..]);
    }
  }

  /** A text over the base64url alphabet decodes unless it is one longer than a multiple of four. */
  lemma OddLengthRejectedIff(s: string)
    requires forall i :: 0 <= i < |s| ==> IsUrlChar(s[i])
    ensures UrlToBytes(Some(s)).Err? <==> |s| % 4 == 1
  {
    assert IsAscii(s) && '=' !in s;
    AllData(s);
    PadOf(|s|);
    hide UrlToBytes, Translated, Pad;
    DecodesIff(s);
  }

  lemma {:induction false} DataCountAppend(s: string, c: char)
    ensures DataCount(s + [c]) == DataCount(s) + if StdValue(c).Some? then 1 else 0
    decreases |s|
  {
    if s == "" {
      assert s + [c] == [c] && [c][1..] == "";
    } else {
      assert (s + [c])[1..] == s[1..] + [c];
      DataCountAppend(s[1..], c);
    }
  }

  lemma {:induction false} EncodingOverAlphabet(bs: seq<Byte>)
    ensures var s := Encode(bs, true, false);
      && (forall i :: 0 <= i < |s| ==> IsUrlChar(s[i]))
      && |s| % 4 == (if |bs| % 3 == 0 then 0 else |bs| % 3 + 1)
    decreases |bs|
  {
    if |bs| >= 3 {
      EncodingOverAlphabet(bs[3..]);
      assert |bs[3..]| % 3 == |bs| % 3;
      assert |Encode(bs, true, false)| == 4 + |Encode(bs[3..], true, false)|;
    }
  }

  lemma StrayNewlineCount(bs: seq<Byte>)
    ensures var s := Encode(bs, true, false); var t := s + "\n";
      IsAscii(t) && '=' !in t && DataCount(Translated(t)) == |s|
  {
    var s := Encode(bs, true, false);
    EncodingOverAlphabet(bs);
    AllData(s);
    TranslatedAppend(s, "\n");
    assert Translated("\n") == ['\n'];
    DataCountAppend(Translated(s), '\n');
  }

  lemma PadLength(n: nat)
    ensures |Pad(n)| == if n % 4 == 0 then 0 else 4 - n % 4
  {
    PadOf(n);
  }

  lemma StrayArithmetic(b: nat, l: nat, n: nat)
    requires l % 4 == if b % 3 == 0 then 0 else b % 3 + 1
    requires n == if (l + 1) % 4 == 0 then 0 else 4 - (l + 1) % 4
    ensures l % 4 == 0 || (l % 4 >= 2 && l % 4 + n >= 4) <==> b % 3 == 0
  {
    assert (l + 1) % 4 == if l % 4 == 3 then 0 else l % 4 + 1;
  }

  /** A stray line end behind an unpadded encoding is skipped, but it is counted in the padding: the
    * text is rejected exactly when the number of bytes is no multiple of three. */
  lemma StrayNewlineRejectedIff(bs: seq<Byte>)
    ensures UrlToBytes(Some(Encode(bs, true, false) + "\n")).Err? <==> |bs| % 3 != 0
  {
    hide *;
    var s := Encode(bs, true, false);
    var t := s + "\n";
    EncodingOverAlphabet(bs);
    StrayNewlineCount(bs);
    DecodesIff(t);
    PadLength(|t|);
    StrayArithmetic(|bs|, |s|, |Pad(|t|)|);
  }
}
