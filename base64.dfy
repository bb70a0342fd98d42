/**
 * The browser's `btoa` and `atob`, applied to byte strings as the vault does
 * (`btoa(String.fromCharCode(...bytes))` and
 * `atob(s).split('').map(c => c.charCodeAt(0))`).
 *
 * `Btoa` is the base64 encoding of section 4 of RFC 4648, with `=` padding.
 * `Atob` is the forgiving-base64 decode of the WHATWG Infra standard: it drops
 * ASCII whitespace, removes at most two trailing `=` from an input whose length
 * is a multiple of four, and then fails on a length of 1 modulo 4 or on any
 * other non-alphabet character; leftover bits of a final partial group are
 * discarded.  `None` is the `InvalidCharacterError` that `atob` throws.
 */
module Base64 {
  import opened Wrappers
  import opened Binary

  /** Six bits: one base64 digit. */
  type Sextet = x: int | 0 <= x < 64

  /** The digit for a sextet, from the alphabet A-Z a-z 0-9 + /. */
  function Symbol(v: Sextet): (c: char)
    ensures IsSymbol(c) && Value(c) == v
  {
    if v < 26 then (65 + v) as char
    else if v < 52 then (97 + v - 26) as char
    else if v < 62 then (48 + v - 52) as char
    else if v == 62 then '+'
    else '/'
  }

  predicate IsSymbol(c: char)
  {
    ('A' <= c <= 'Z') || ('a' <= c <= 'z') || ('0' <= c <= '9') || c == '+' || c == '/'
  }

  /** The sextet a digit stands for. */
  function Value(c: char): Sextet
    requires IsSymbol(c)
  {
    if 'A' <= c <= 'Z' then c as int - 65
    else if 'a' <= c <= 'z' then c as int - 97 + 26
    else if '0' <= c <= '9' then c as int - 48 + 52
    else if c == '+' then 62
    else 63
  }

  /** The ASCII whitespace that forgiving-base64 decode ignores. */
  predicate IsAsciiWhitespace(c: char)
  {
    c == '\t' || c == '\n' || c == '\U{000C}' || c == '\r' || c == ' '
  }

  // ---------------------------------------------------------------------
  // Encoding

  /** The four digits of three bytes, six bits each, most significant first. */
  function EncodeGroup(x0: Byte, x1: Byte, x2: Byte): seq<Sextet>
  {
    [x0 / 4, (x0 % 4) * 16 + x1 / 16, (x1 % 16) * 4 + x2 / 64, x2 % 64]
  }

  /** The digits of `b`: four per group of three bytes, two or three for a final partial group. */
  function EncodeSextets(b: Bytes): (v: seq<Sextet>)
    ensures |v| == |b| + (|b| + 2) / 3
    decreases |b|
  {
    if |b| == 0 then []
    else if |b| == 1 then EncodeGroup(b[0], 0, 0)[..2]
    else if |b| == 2 then EncodeGroup(b[0], b[1], 0)[..3]
    else EncodeGroup(b[0], b[1], b[2]) + EncodeSextets(b[3..])
  }

  /** The digits written out as characters. */
  function Symbols(v: seq<Sextet>): (s: string)
    ensures |s| == |v|
    ensures forall i :: 0 <= i < |v| ==> s[i] == Symbol(v[i])
  {
    if |v| == 0 then "" else [Symbol(v[0])] + Symbols(v[1..])
  }

  /** The `=` characters that complete the last group of four. */
  function Padding(n: nat): string
  {
    if n % 3 == 1 then "==" else if n % 3 == 2 then "=" else ""
  }

  /** `btoa` of the binary string whose character codes are `b`. */
  function Btoa(b: Bytes): (s: string)
    ensures |s| == 4 * ((|b| + 2) / 3)
    ensures forall i :: 0 <= i < |s| ==> IsSymbol(s[i]) || s[i] == '='
    ensures ':' !in s  // so the `:` that separates the two parts of an envelope is never inside one
  {
    Symbols(EncodeSextets(b)) + Padding(|b|)
  }

  // ---------------------------------------------------------------------
  // Decoding

  function StripWhitespace(s: string): (t: string)
    ensures forall i :: 0 <= i < |t| ==> !IsAsciiWhitespace(t[i])
  {
    if |s| == 0 then ""
    else if IsAsciiWhitespace(s[0]) then StripWhitespace(s[1..])
    else [s[0]] + StripWhitespace(s[1..])
  }

  /** Removes one or two trailing `=` when the length is a multiple of four. */
  function Unpad(s: string): string
  {
    if |s| % 4 == 0 && |s| >= 2 && s[|s| - 2] == '=' && s[|s| - 1] == '=' then s[..|s| - 2]
    else if |s| % 4 == 0 && |s| >= 1 && s[|s| - 1] == '=' then s[..|s| - 1]
    else s
  }

  /** The sextets of a string of digits; `None` when some character is not a digit. */
  function SextetsOf(s: string): (r: Option<seq<Sextet>>)
    ensures r.Some? <==> forall i :: 0 <= i < |s| ==> IsSymbol(s[i])
    ensures r.Some? ==> Symbols(r.value) == s
  {
    if |s| == 0 then Some([])
    else if !IsSymbol(s[0]) then None
    else match SextetsOf(s[1..])
      case None => None
      case Some(rest) => Some([Value(s[0])] + rest)
  }

  /** The three bytes of four digits. */
  function DecodeGroup(v0: Sextet, v1: Sextet, v2: Sextet, v3: Sextet): (b: Bytes)
    ensures |b| == 3
  {
    var b0: Byte := (v0 as int) * 4 + (v1 as int) / 16;
    var b1: Byte := ((v1 as int) % 16) * 16 + (v2 as int) / 4;
    var b2: Byte := ((v2 as int) % 4) * 64 + (v3 as int);
    [b0, b1, b2]
  }

  /** Three bytes per four digits; a final group of two or three digits gives one or two bytes. */
  function DecodeSextets(v: seq<Sextet>): (b: Bytes)
    requires |v| % 4 != 1
    ensures |b| == |v| * 6 / 8  // the leftover bits of a short final group are dropped
    decreases |v|
  {
    if |v| == 0 then []
    else if |v| == 2 then DecodeGroup(v[0], v[1], 0, 0)[..1]
    else if |v| == 3 then DecodeGroup(v[0], v[1], v[2], 0)[..2]
    else DecodeGroup(v[0], v[1], v[2], v[3]) + DecodeSextets(v[4..])
  }

  /**
   * `atob`, followed by reading back the character codes; `None` where `atob`
   * throws.  After whitespace and padding are removed, it fails exactly when
   * one character in four would be left over or a character is not a digit,
   * and otherwise yields six bits per digit, whole bytes only.
   */
  function Atob(s: string): (r: Option<Bytes>)
    ensures var t := Unpad(StripWhitespace(s));
      r.None? <==> |t| % 4 == 1 || exists i :: 0 <= i < |t| && !IsSymbol(t[i])
    ensures var t := Unpad(StripWhitespace(s));
      r.Some? ==> |r.value| == |t| * 6 / 8
  {
    var t := Unpad(StripWhitespace(s));
    if |t| % 4 == 1 then None
    else match SextetsOf(t)
      case None => None
      case Some(v) => Some(DecodeSextets(v))
  }

  // ---------------------------------------------------------------------
  // Properties

  /** Three bytes survive being cut into four digits and joined again. */
  lemma DecodeEncodeGroup(x0: Byte, x1: Byte, x2: Byte)
    ensures var g := EncodeGroup(x0, x1, x2);
      DecodeGroup(g[0], g[1], g[2], g[3]) == [x0, x1, x2]
  {
    var g := EncodeGroup(x0, x1, x2);
    assert (g[1] as int) / 16 == x0 % 4;
    assert (g[1] as int) % 16 == x1 / 16;
    assert (g[2] as int) / 4 == x1 % 16;
    assert (g[2] as int) % 4 == x2 / 64;
  }

  /** Encoding and then decoding peels off one group of three bytes. */
  lemma DecodeEncodeStep(b: Bytes)
    requires |b| >= 3
    requires |EncodeSextets(b[3..])| % 4 != 1
    ensures |EncodeSextets(b)| == 4 + |EncodeSextets(b[3..])|
    ensures DecodeSextets(EncodeSextets(b)) == [b[0], b[1], b[2]] + DecodeSextets(EncodeSextets(b[3..]))
  {
    var v := EncodeSextets(b);
    var g := EncodeGroup(b[0], b[1], b[2]);
    assert v == g + EncodeSextets(b[3..]);
    assert v[4..] == EncodeSextets(b[3..]);
    DecodeEncodeGroup(b[0], b[1], b[2]);
  }

  /** A final partial group of one or two bytes survives as two or three digits. */
  lemma DecodeEncodeTail(b: Bytes)
    requires 1 <= |b| <= 2
    ensures |EncodeSextets(b)| == |b| + 1
    ensures DecodeSextets(EncodeSextets(b)) == b
  {
    if |b| == 1 {
      DecodeEncodeGroup(b[0], 0, 0);
    } else {
      DecodeEncodeGroup(b[0], b[1], 0);
    }
  }

  lemma {:induction false} DecodeEncodeSextets(b: Bytes)
    ensures |EncodeSextets(b)| % 4 != 1
    ensures DecodeSextets(EncodeSextets(b)) == b
    decreases |b|
  {
    if 1 <= |b| <= 2 {
      DecodeEncodeTail(b);
    } else if |b| >= 3 {
      DecodeEncodeSextets(b[3..]);
      DecodeEncodeStep(b);
      assert b == [b[0], b[1], b[2]] + b[3..];
    }
  }

  lemma {:induction false} StripWhitespaceOfClean(s: string)
    requires forall i :: 0 <= i < |s| ==> !IsAsciiWhitespace(s[i])
    ensures StripWhitespace(s) == s
  {
    if |s| > 0 {
      StripWhitespaceOfClean(s[1..]);
      assert s == [s[0]] + s[1..];
    }
  }

  /** Removing the padding `btoa` adds leaves exactly the digits. */
  lemma UnpadDigits(core: string, pad: string)
    requires forall i :: 0 <= i < |core| ==> IsSymbol(core[i])
    requires pad == "" || pad == "=" || pad == "=="
    requires (|core| + |pad|) % 4 == 0
    requires pad != "" ==> |core| > 0
    ensures Unpad(core + pad) == core
  {
    var s := core + pad;
    if pad == "" {
      assert s == core;
    } else if pad == "=" {
      assert s[|s| - 2] == core[|core| - 1];
      assert s[..|s| - 1] == core;
    } else {
      assert s[..|s| - 2] == core;
    }
  }

  /** The digits and the padding of `btoa` fill whole groups of four. */
  lemma PaddedLength(n: nat)
    ensures (n + (n + 2) / 3 + |Padding(n)|) % 4 == 0
  {
    var k := n / 3;
    assert n == 3 * k + n % 3;
  }

  lemma UnpadBtoa(b: Bytes)
    ensures Unpad(Btoa(b)) == Symbols(EncodeSextets(b))
  {
    var v := EncodeSextets(b);
    var core := Symbols(v);
    PaddedLength(|b|);
    forall i | 0 <= i < |core| ensures IsSymbol(core[i]) {
      assert core[i] == Symbol(v[i]);
    }
    UnpadDigits(core, Padding(|b|));
  }

  /** `atob` undoes `btoa`: the stored salt and every envelope part read back to the bytes written. */
  lemma AtobBtoa(b: Bytes)
    ensures Atob(Btoa(b)) == Some(b)
  {
    var s := Btoa(b);
    forall i | 0 <= i < |s| ensures !IsAsciiWhitespace(s[i]) {
      assert IsSymbol(s[i]) || s[i] == '=';
    }
    StripWhitespaceOfClean(s);
    UnpadBtoa(b);
    var v := EncodeSextets(b);
    assert SextetsOf(Symbols(v)).Some?;
    SextetsOfInjective(Symbols(v), v);
    DecodeEncodeSextets(b);
  }

  lemma {:induction false} SextetsOfInjective(s: string, v: seq<Sextet>)
    requires Symbols(v) == s
    ensures SextetsOf(s) == Some(v)
  {
    if |v| > 0 {
      assert Symbols(v[1..]) == s[1..];
      SextetsOfInjective(s[1..], v[1..]);
      assert [Value(s[0])] + v[1..] == v;
    }
  }

  /** `atob(undefined)` decodes the nine characters "undefined" and throws: 9 is 1 modulo 4. */
  lemma AtobOfUndefined()
    ensures Atob("undefined") == None
  {
    var s := "undefined";
    forall i | 0 <= i < |s| ensures !IsAsciiWhitespace(s[i]) { }
    StripWhitespaceOfClean(s);
  }
}
