/**
  Base64 as the browser's `btoa`/`atob` implement it (section 4 of RFC 4648, with the
  WHATWG "forgiving-base64" decoder), and the URL-safe variant of section 5 of RFC 4648
  that the key in a room link uses: `b64urlEncode` (home page) and `b64urlDecode`
  (room page).
*/
module Base64 {
  import opened Common

  /** A 6-bit value: the index of one base64 symbol. */
  type sextet = x: int | 0 <= x < 64

  /** Table 1 of RFC 4648: the symbol for a 6-bit value. */
  function Symbol(v: sextet): char
  {
    if v < 26 then (65 + v) as char
    else if v < 52 then (97 + v - 26) as char
    else if v < 62 then (48 + v - 52) as char
    else if v == 62 then '+'
    else '/'
  }

  /** The symbols `atob` accepts: ASCII alphanumerics, '+' and '/'. */
  predicate IsSymbol(c: char)
  {
    ('A' <= c <= 'Z') || ('a' <= c <= 'z') || ('0' <= c <= '9') || c == '+' || c == '/'
  }

  function ValueOf(c: char): sextet
    requires IsSymbol(c)
  {
    if 'A' <= c <= 'Z' then c as int - 65
    else if 'a' <= c <= 'z' then c as int - 97 + 26
    else if '0' <= c <= '9' then c as int - 48 + 52
    else if c == '+' then 62
    else 63
  }

  lemma SymbolValue(v: sextet)
    ensures IsSymbol(Symbol(v)) && ValueOf(Symbol(v)) == v
  {
  }

  /** A "binary string": one UTF-16 code unit per octet (`String.fromCharCode(u8[i])`). */
  function BinaryString(b: seq<byte>): (s: string)
    ensures |s| == |b|
    ensures forall i :: 0 <= i < |b| ==> s[i] as int == b[i]
  {
    seq(|b|, i requires 0 <= i < |b| => b[i] as char)
  }

  predicate IsBinary(s: string)
  {
    forall i :: 0 <= i < |s| ==> s[i] as int < 256
  }

  /** The octets of a binary string (`charCodeAt`). */
  function Octets(s: string): (b: seq<byte>)
    requires IsBinary(s)
    ensures |b| == |s|
    ensures forall i :: 0 <= i < |s| ==> b[i] == s[i] as int
  {
    seq(|s|, i requires 0 <= i < |s| => s[i] as int)
  }

  /** The 2, 3 or 4 symbols that encode a group of 1, 2 or 3 octets, before padding. */
  function EncodeGroup(g: seq<byte>): (r: string)
    requires 1 <= |g| <= 3
    ensures |r| == |g| + 1
    ensures forall i :: 0 <= i < |r| ==> IsSymbol(r[i])
  {
    var a := g[0];
    if |g| == 1 then
      [Symbol(a / 4), Symbol((a % 4) * 16)]
    else
      var b := g[1];
      if |g| == 2 then
        [Symbol(a / 4), Symbol((a % 4) * 16 + b / 16), Symbol((b % 16) * 4)]
      else
        var c := g[2];
        [Symbol(a / 4), Symbol((a % 4) * 16 + b / 16), Symbol((b % 16) * 4 + c / 64), Symbol(c % 64)]
  }

  /** The symbols of the whole input, 24-bit group by 24-bit group, without padding. */
  function EncodeBody(b: seq<byte>): string
    decreases |b|
  {
    if |b| == 0 then []
    else if |b| <= 3 then EncodeGroup(b)
    else EncodeGroup(b[..3]) + EncodeBody(b[3..])
  }

  function Repeat(c: char, n: nat): (r: string)
    ensures |r| == n
    ensures forall i :: 0 <= i < n ==> r[i] == c
  {
    if n == 0 then [] else [c] + Repeat(c, n - 1)
  }

  /** The number of '=' that complete the final quantum of an `n`-octet input. */
  function PadCount(n: nat): nat
  {
    if n % 3 == 1 then 2 else if n % 3 == 2 then 1 else 0
  }

  /** `btoa`: padded base64 of a binary string; throws (None) on a code unit above 0xFF. */
  function Btoa(s: string): Option<string>
  {
    if IsBinary(s) then Some(EncodeBody(Octets(s)) + Repeat('=', PadCount(|s|))) else None
  }

  /** The ASCII whitespace that forgiving-base64 decode removes first. */
  predicate IsAsciiWhitespace(c: char)
  {
    c == '\t' || c == '\n' || c == '\U{000C}' || c == '\r' || c == ' '
  }

  function RemoveWhitespace(s: string): (r: string)
    ensures |r| <= |s|
  {
    if s == [] then []
    else if IsAsciiWhitespace(s[0]) then RemoveWhitespace(s[1..])
    else [s[0]] + RemoveWhitespace(s[1..])
  }

  /** When the length is a multiple of 4, one or two trailing '=' are removed. */
  function StripPadding(d: string): string
  {
    if |d| % 4 == 0 && |d| >= 2 && d[|d| - 2] == '=' && d[|d| - 1] == '=' then d[..|d| - 2]
    else if |d| % 4 == 0 && |d| >= 1 && d[|d| - 1] == '=' then d[..|d| - 1]
    else d
  }

  /** The octets of 2, 3 or 4 symbols; leftover low bits are discarded. */
  function DecodeGroup(cs: string): (r: seq<byte>)
    requires 2 <= |cs| <= 4
    requires forall i :: 0 <= i < |cs| ==> IsSymbol(cs[i])
    ensures |r| == |cs| - 1
  {
    var v0 := ValueOf(cs[0]);
    var v1 := ValueOf(cs[1]);
    if |cs| == 2 then
      [v0 * 4 + v1 / 16]
    else
      var v2 := ValueOf(cs[2]);
      if |cs| == 3 then
        [v0 * 4 + v1 / 16, (v1 % 16) * 16 + v2 / 4]
      else
        var v3 := ValueOf(cs[3]);
        [v0 * 4 + v1 / 16, (v1 % 16) * 16 + v2 / 4, (v2 % 4) * 64 + v3]
  }

  function DecodeBody(cs: string): seq<byte>
    requires |cs| % 4 != 1
    requires forall i :: 0 <= i < |cs| ==> IsSymbol(cs[i])
    decreases |cs|
  {
    if |cs| == 0 then []
    else if |cs| <= 4 then DecodeGroup(cs)
    else DecodeGroup(cs[..4]) + DecodeBody(cs[4..])
  }

  /** `atob`: forgiving-base64 decode to a binary string; None where it throws. */
  function Atob(s: string): (r: Option<string>)
    ensures r.Some? ==> IsBinary(r.value)
  {
    var d := StripPadding(RemoveWhitespace(s));
    if |d| % 4 == 1 then None
    else if exists i :: 0 <= i < |d| && !IsSymbol(d[i]) then None
    else Some(BinaryString(DecodeBody(d)))
  }

  /** `s.replace(/x/g, y)` for a single character `x`. */
  function ReplaceAll(s: string, x: char, y: char): (r: string)
    ensures |r| == |s|
    ensures forall i :: 0 <= i < |s| ==> r[i] == (if s[i] == x then y else s[i])
  {
    seq(|s|, i requires 0 <= i < |s| => if s[i] == x then y else s[i])
  }

  /** `s.replace(/=+$/g, "")` for `c == '='`: drops every trailing `c`. */
  function StripTrailing(s: string, c: char): string
    decreases |s|
  {
    if |s| > 0 && s[|s| - 1] == c then StripTrailing(s[..|s| - 1], c) else s
  }

  /** What `b64urlEncode(u8)` returns: `btoa` of the binary string, '+' to '-', '/' to '_', '=' stripped. */
  function UrlEncoding(b: seq<byte>): string
  {
    var std := EncodeBody(b) + Repeat('=', PadCount(|b|));
    StripTrailing(ReplaceAll(ReplaceAll(std, '+', '-'), '/', '_'), '=')
  }

  /** The number of '=' that `b64urlDecode` appends. */
  function UrlPadCount(n: nat): nat
  {
    (4 - n % 4) % 4
  }

  /** What `b64urlDecode(s)` returns, or None where `atob` throws. */
  function UrlDecoding(s: string): Option<seq<byte>>
  {
    match Atob(UrlToStandard(s))
    case None => None
    case Some(bin) => Some(Uint8(bin))
  }

  /** The standard-alphabet, padded text that `b64urlDecode` hands to `atob`. */
  function UrlToStandard(s: string): string
  {
    ReplaceAll(ReplaceAll(s + Repeat('=', UrlPadCount(|s|)), '-', '+'), '_', '/')
  }

  /** `Uint8Array.from(bin, c => c.charCodeAt(0))`: each code unit truncated to an octet. */
  function Uint8(bin: string): (r: seq<byte>)
    ensures |r| == |bin|
    ensures forall i :: 0 <= i < |bin| ==> r[i] == (bin[i] as int) % 256
  {
    seq(|bin|, i requires 0 <= i < |bin| => (bin[i] as int) % 256)
  }

  // ---------------------------------------------------------------- the two loops

  /** `b64urlEncode` of home.tsx / home.ts: builds the binary string in a loop, then encodes. */
  method B64urlEncode(u8: array<byte>) returns (r: string)
    ensures r == UrlEncoding(u8[..])
    ensures forall i :: 0 <= i < |r| ==> r[i] != '+' && r[i] != '/' && r[i] != '='
    ensures UrlDecoding(r) == Some(u8[..])
  {
    var s: string := [];
    for i := 0 to u8.Length
      invariant s == BinaryString(u8[..i])
    {
      s := s + [u8[i] as char];
    }
    assert u8[..] == u8[..u8.Length];
    OctetsOfBinary(u8[..]);
    var encoded := Btoa(s).value;
    r := StripTrailing(ReplaceAll(ReplaceAll(encoded, '+', '-'), '/', '_'), '=');
    UrlAlphabet(u8[..]);
    UrlRoundTrip(u8[..]);
  }

  /** `b64urlDecode` of room.tsx / room.ts: pads, maps back to the standard alphabet, decodes,
      then copies the binary string into a fresh `Uint8Array`. */
  method B64urlDecode(s: string) returns (r: Option<array<byte>>)
    ensures r.None? <==> UrlDecoding(s).None?
    ensures r.Some? ==> fresh(r.value) && r.value[..] == UrlDecoding(s).value
  {
    var pad := Repeat('=', (4 - |s| % 4) % 4);
    var b64 := ReplaceAll(ReplaceAll(s + pad, '-', '+'), '_', '/');
    var bin := Atob(b64);
    if bin.None? {
      return None;
    }
    var text := bin.value;
    var out := new byte[|text|];
    for i := 0 to |text|
      invariant forall k :: 0 <= k < i ==> out[k] == (text[k] as int) % 256
    {
      out[i] := (text[i] as int) % 256;
    }
    r := Some(out);
  }

  // ---------------------------------------------------------------- round trip

  lemma OctetsOfBinary(b: seq<byte>)
    ensures IsBinary(BinaryString(b)) && Octets(BinaryString(b)) == b
  {
  }

  lemma GroupRoundTrip(g: seq<byte>)
    requires 1 <= |g| <= 3
    ensures DecodeGroup(EncodeGroup(g)) == g
  {
    if |g| == 1 {
      OneOctet(g[0]);
      assert g == [g[0]];
    } else if |g| == 2 {
      TwoOctets(g[0], g[1]);
      assert g == [g[0], g[1]];
    } else {
      ThreeOctets(g[0], g[1], g[2]);
      assert g == [g[0], g[1], g[2]];
    }
  }

  lemma OneOctet(a: byte)
    ensures DecodeGroup(EncodeGroup([a])) == [a]
  {
    SymbolValue(a / 4);
    SymbolValue((a % 4) * 16);
  }

  lemma TwoOctets(a: byte, b: byte)
    ensures DecodeGroup(EncodeGroup([a, b])) == [a, b]
  {
    var v1 := (a % 4) * 16 + b / 16;
    var v2 := (b % 16) * 4;
    assert EncodeGroup([a, b]) == [Symbol(a / 4), Symbol(v1), Symbol(v2)];
    SymbolValue(a / 4);
    SymbolValue(v1);
    SymbolValue(v2);
    Carry16(a % 4, b / 16);
    Carry4(b % 16, 0);
  }

  lemma ThreeOctets(a: byte, b: byte, c: byte)
    ensures DecodeGroup(EncodeGroup([a, b, c])) == [a, b, c]
  {
    var v1 := (a % 4) * 16 + b / 16;
    var v2 := (b % 16) * 4 + c / 64;
    assert EncodeGroup([a, b, c]) == [Symbol(a / 4), Symbol(v1), Symbol(v2), Symbol(c % 64)];
    DecodeFour(a / 4, v1, v2, c % 64);
    ThreeOctetsArith(a, b, c);
  }

  /** Four symbols decode to three octets built from their values. */
  lemma DecodeFour(v0: sextet, v1: sextet, v2: sextet, v3: sextet)
    ensures DecodeGroup([Symbol(v0), Symbol(v1), Symbol(v2), Symbol(v3)])
      == [v0 * 4 + v1 / 16, (v1 % 16) * 16 + v2 / 4, (v2 % 4) * 64 + v3]
  {
    SymbolValue(v0);
    SymbolValue(v1);
    SymbolValue(v2);
    SymbolValue(v3);
  }

  /** Re-assembling the three octets from the four sextets they were cut into. */
  lemma ThreeOctetsArith(a: byte, b: byte, c: byte)
    ensures var v1 := (a % 4) * 16 + b / 16;
      var v2 := (b % 16) * 4 + c / 64;
      (a / 4) * 4 + v1 / 16 == a && (v1 % 16) * 16 + v2 / 4 == b && (v2 % 4) * 64 + c % 64 == c
  {
    Carry16(a % 4, b / 16);
    Carry4(b % 16, c / 64);
  }

  /** The high and low parts of `hi * 16 + lo` come apart again. */
  lemma Carry16(hi: nat, lo: nat)
    requires lo < 16
    ensures (hi * 16 + lo) / 16 == hi && (hi * 16 + lo) % 16 == lo
  {
  }

  /** The high and low parts of `hi * 4 + lo` come apart again. */
  lemma Carry4(hi: nat, lo: nat)
    requires lo < 4
    ensures (hi * 4 + lo) / 4 == hi && (hi * 4 + lo) % 4 == lo
  {
  }

  lemma {:induction false} EncodeBodyShape(b: seq<byte>)
    ensures |EncodeBody(b)| % 4 == (if |b| % 3 == 0 then 0 else |b| % 3 + 1)
    ensures |EncodeBody(b)| == 0 <==> |b| == 0
    ensures forall i :: 0 <= i < |EncodeBody(b)| ==> IsSymbol(EncodeBody(b)[i])
  {
    EncodeBodySymbols(b);
    BodyLengthMod(|b|);
  }

  /** The number of symbols `EncodeBody` produces for `n` octets. */
  function BodyLength(n: nat): nat
  {
    if n == 0 then 0 else if n <= 3 then n + 1 else 4 + BodyLength(n - 3)
  }

  lemma {:induction false} EncodeBodySymbols(b: seq<byte>)
    ensures |EncodeBody(b)| == BodyLength(|b|)
    ensures forall i :: 0 <= i < |EncodeBody(b)| ==> IsSymbol(EncodeBody(b)[i])
    decreases |b|
  {
    if |b| > 3 {
      EncodeBodySymbols(b[3..]);
    }
  }

  lemma {:induction false} BodyLengthMod(n: nat)
    ensures BodyLength(n) % 4 == (if n % 3 == 0 then 0 else n % 3 + 1)
    ensures BodyLength(n) == 0 <==> n == 0
  {
    if n > 3 {
      BodyLengthMod(n - 3);
    }
  }

  lemma {:induction false} BodyRoundTrip(b: seq<byte>)
    ensures |EncodeBody(b)| % 4 != 1
    ensures forall i :: 0 <= i < |EncodeBody(b)| ==> IsSymbol(EncodeBody(b)[i])
    ensures DecodeBody(EncodeBody(b)) == b
    decreases |b|
  {
    EncodeBodyShape(b);
    if |b| == 0 {
    } else if |b| <= 3 {
      GroupRoundTrip(b);
    } else {
      var head := EncodeGroup(b[..3]);
      var tail := EncodeBody(b[3..]);
      BodyRoundTrip(b[3..]);
      GroupRoundTrip(b[..3]);
      DecodeAppend(head, tail);
      assert b[..3] + b[3..] == b;
    }
  }

  /** Decoding a full quantum followed by the rest. */
  lemma DecodeAppend(head: string, tail: string)
    requires |head| == 4 && |tail| % 4 != 1 && |tail| > 0
    requires forall i :: 0 <= i < |head| ==> IsSymbol(head[i])
    requires forall i :: 0 <= i < |tail| ==> IsSymbol(tail[i])
    ensures |head + tail| % 4 != 1
    ensures forall i :: 0 <= i < |head + tail| ==> IsSymbol((head + tail)[i])
    ensures DecodeBody(head + tail) == DecodeGroup(head) + DecodeBody(tail)
  {
    var e := head + tail;
    assert e[..4] == head;
    assert e[4..] == tail;
  }

  lemma {:induction false} StripTrailingPadding(x: string, n: nat)
    requires x == [] || x[|x| - 1] != '='
    ensures StripTrailing(x + Repeat('=', n), '=') == x
    decreases n
  {
    if n > 0 {
      var s := x + Repeat('=', n);
      assert s[..|s| - 1] == x + Repeat('=', n - 1);
      StripTrailingPadding(x, n - 1);
    }
  }

  /** The URL-safe form of a body: standard symbols with '+' and '/' replaced. */
  function UrlSafe(e: string): string
  {
    ReplaceAll(ReplaceAll(e, '+', '-'), '/', '_')
  }

  lemma UrlSafeOfPadded(e: string, n: nat)
    ensures ReplaceAll(ReplaceAll(e + Repeat('=', n), '+', '-'), '/', '_') == UrlSafe(e) + Repeat('=', n)
  {
  }

  lemma UrlEncodingOfBody(b: seq<byte>)
    ensures UrlEncoding(b) == UrlSafe(EncodeBody(b))
  {
    var e := EncodeBody(b);
    EncodeBodyShape(b);
    UrlSafeOfPadded(e, PadCount(|b|));
    StripTrailingPadding(UrlSafe(e), PadCount(|b|));
  }

  /** The symbols of the URL-safe alphabet (Table 2 of RFC 4648). */
  predicate IsUrlSymbol(c: char)
  {
    ('A' <= c <= 'Z') || ('a' <= c <= 'z') || ('0' <= c <= '9') || c == '-' || c == '_'
  }

  /** The URL-safe encoding uses only the URL-safe alphabet: no '+', '/', '=' or any
      character a URL gives a meaning to. */
  lemma {:induction false} UrlAlphabet(b: seq<byte>)
    ensures forall i :: 0 <= i < |UrlEncoding(b)| ==>
      UrlEncoding(b)[i] != '+' && UrlEncoding(b)[i] != '/' && UrlEncoding(b)[i] != '='
    ensures forall i :: 0 <= i < |UrlEncoding(b)| ==> IsUrlSymbol(UrlEncoding(b)[i])
    ensures |UrlEncoding(b)| == 0 <==> |b| == 0
  {
    UrlEncodingOfBody(b);
    EncodeBodyShape(b);
  }

  /** Mapping '-' and '_' back undoes the URL-safe mapping of standard symbols. */
  lemma RestoreStandard(e: string, n: nat)
    requires forall i :: 0 <= i < |e| ==> IsSymbol(e[i])
    ensures ReplaceAll(ReplaceAll(UrlSafe(e) + Repeat('=', n), '-', '+'), '_', '/') == e + Repeat('=', n)
  {
  }

  /** `atob` accepts the padded standard encoding and returns the original octets. */
  lemma {:induction false} AtobOfEncoding(b: seq<byte>)
    ensures Atob(EncodeBody(b) + Repeat('=', PadCount(|b|))) == Some(BinaryString(b))
  {
    var e := EncodeBody(b);
    var p := PadCount(|b|);
    var s := e + Repeat('=', p);
    assert (forall i :: 0 <= i < |e| ==> IsSymbol(e[i])) && (|e| + p) % 4 == 0 by {
      EncodeBodyShape(b);
      PadFills(|b|, |e|);
    }
    assert RemoveWhitespace(s) == s by {
      PaddedNoWhitespace(e, p);
      NoWhitespace(s);
    }
    assert StripPadding(s) == e by {
      StripPaddingOf(e, p);
    }
    assert DecodeBody(e) == b && |e| % 4 != 1 && forall i :: 0 <= i < |e| ==> IsSymbol(e[i]) by {
      BodyRoundTrip(b);
    }
    AtobAccepts(s, e);
  }

  /** The padding completes the last quantum. */
  lemma PadFills(n: nat, m: nat)
    requires m % 4 == (if n % 3 == 0 then 0 else n % 3 + 1)
    ensures (m + PadCount(n)) % 4 == 0
  {
  }

  lemma PaddedNoWhitespace(e: string, p: nat)
    requires forall i :: 0 <= i < |e| ==> IsSymbol(e[i])
    ensures forall i :: 0 <= i < |e + Repeat('=', p)| ==> !IsAsciiWhitespace((e + Repeat('=', p))[i])
  {
  }

  /** `atob` of a text whose unpadded form is a well-formed run of symbols. */
  lemma AtobAccepts(s: string, e: string)
    requires StripPadding(RemoveWhitespace(s)) == e
    requires |e| % 4 != 1 && forall i :: 0 <= i < |e| ==> IsSymbol(e[i])
    ensures Atob(s) == Some(BinaryString(DecodeBody(e)))
  {
  }

  lemma StripPaddingOf(e: string, p: nat)
    requires p <= 2 && (|e| + p) % 4 == 0
    requires e == [] || e[|e| - 1] != '='
    ensures StripPadding(e + Repeat('=', p)) == e
  {
    var s := e + Repeat('=', p);
    if p == 2 {
      assert s[..|s| - 2] == e;
    } else if p == 1 {
      assert s[..|s| - 1] == e;
    }
  }

  /** `b64urlDecode` rebuilds exactly the padded standard text that `btoa` produced. */
  lemma {:induction false} UrlToStandardOfEncoding(b: seq<byte>)
    ensures UrlToStandard(UrlEncoding(b)) == EncodeBody(b) + Repeat('=', PadCount(|b|))
  {
    var e := EncodeBody(b);
    var p := PadCount(|b|);
    assert UrlEncoding(b) == UrlSafe(e) by {
      UrlEncodingOfBody(b);
    }
    assert (forall i :: 0 <= i < |e| ==> IsSymbol(e[i])) && UrlPadCount(|e|) == p by {
      EncodeBodyShape(b);
      PadCountsAgree(|b|, |e|);
    }
    UrlToStandardOfSafe(e, p);
  }

  /** The padding `b64urlDecode` restores is the padding `btoa` added. */
  lemma PadCountsAgree(n: nat, m: nat)
    requires m % 4 == (if n % 3 == 0 then 0 else n % 3 + 1)
    ensures UrlPadCount(m) == PadCount(n)
  {
  }

  lemma UrlToStandardOfSafe(e: string, p: nat)
    requires forall i :: 0 <= i < |e| ==> IsSymbol(e[i])
    requires UrlPadCount(|e|) == p
    ensures UrlToStandard(UrlSafe(e)) == e + Repeat('=', p)
  {
    RestoreStandard(e, p);
  }

  lemma Uint8OfBinary(b: seq<byte>)
    ensures Uint8(BinaryString(b)) == b
  {
  }

  lemma {:induction false} UrlRoundTrip(b: seq<byte>)
    ensures UrlDecoding(UrlEncoding(b)) == Some(b)
  {
    var u := UrlEncoding(b);
    assert Atob(UrlToStandard(u)) == Some(BinaryString(b)) by {
      UrlToStandardOfEncoding(b);
      AtobOfEncoding(b);
    }
    Uint8OfBinary(b);
  }

  lemma {:induction false} NoWhitespace(s: string)
    requires forall i :: 0 <= i < |s| ==> !IsAsciiWhitespace(s[i])
    ensures RemoveWhitespace(s) == s
  {
    if s != [] {
      NoWhitespace(s[1..]);
      assert s == [s[0]] + s[1..];
    }
  }
}
