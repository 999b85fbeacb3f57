/** `btoa` and `atob`: the Base64 encoding of section 4 of RFC 4648 over
    "binary strings" (every character below 256 stands for one byte), with
    `atob` following the forgiving-base64 decode of the WHATWG Infra standard:
    ASCII whitespace is ignored, padding is optional, and any other character
    outside the alphabet is an error. */
module Base64 {
  import opened Options

  type Byte = x: int | 0 <= x < 256
  type Sextet = x: int | 0 <= x < 64

  /** The alphabet of Table 1 of RFC 4648. */
  function Symbol(v: Sextet): char {
    if v < 26 then ('A' as int + v) as char
    else if v < 52 then ('a' as int + (v - 26)) as char
    else if v < 62 then ('0' as int + (v - 52)) as char
    else if v == 62 then '+'
    else '/'
  }

  /** The inverse of `Symbol`; -1 for a character outside the alphabet. */
  function SextetOf(c: char): (r: int)
    ensures -1 <= r < 64
  {
    if 'A' <= c <= 'Z' then c as int - 'A' as int
    else if 'a' <= c <= 'z' then c as int - 'a' as int + 26
    else if '0' <= c <= '9' then c as int - '0' as int + 52
    else if c == '+' then 62
    else if c == '/' then 63
    else -1
  }

  lemma SextetOfSymbol(v: Sextet)
    ensures SextetOf(Symbol(v)) == v
  {
  }

  predicate InAlphabet(s: string) {
    forall i :: 0 <= i < |s| ==> SextetOf(s[i]) >= 0
  }

  /** The 6-bit groups of the input bytes, most significant bits first; a
      final partial group is filled up with zero bits (section 4 of RFC 4648). */
  function Sextets(b: seq<Byte>): (v: seq<Sextet>)
    ensures |v| % 4 != 1
    ensures |v| == (8 * |b| + 5) / 6
  {
    if |b| == 0 then []
    else if |b| == 1 then Group(b[0], 0, 0)[..2]
    else if |b| == 2 then Group(b[0], b[1], 0)[..3]
    else Group(b[0], b[1], b[2]) + Sextets(b[3..])
  }

  /** The four 6-bit groups of three bytes. */
  function Group(b0: Byte, b1: Byte, b2: Byte): (g: seq<Sextet>)
    ensures |g| == 4
  {
    [b0 / 4, (b0 % 4) * 16 + b1 / 16, (b1 % 16) * 4 + b2 / 64, b2 % 64]
  }

  /** The bytes carried by a sequence of 6-bit groups; the bits of a final
      partial group that do not fill a byte are discarded. */
  function Bytes(v: seq<Sextet>): seq<Byte>
    requires |v| % 4 != 1
  {
    if |v| == 0 then []
    else if |v| == 2 then [First(v[0], v[1])]
    else if |v| == 3 then [First(v[0], v[1]), Second(v[1], v[2])]
    else [First(v[0], v[1]), Second(v[1], v[2]), Third(v[2], v[3])] + Bytes(v[4..])
  }

  /** Every four 6-bit groups give three bytes, a final group of two or
      three gives one or two. */
  lemma {:induction false} BytesLength(v: seq<Sextet>)
    requires |v| % 4 != 1
    ensures |Bytes(v)| == 3 * |v| / 4
  {
    if |v| >= 4 {
      BytesLength(v[4..]);
    }
  }

  /** The byte made of all six bits of `x` and the top two bits of `y`. */
  function First(x: Sextet, y: Sextet): Byte {
    assert y / 16 < 4;
    x * 4 + y / 16
  }

  /** The byte made of the low four bits of `x` and the top four bits of `y`. */
  function Second(x: Sextet, y: Sextet): Byte {
    assert x % 16 < 16 && y / 4 < 16;
    (x % 16) * 16 + y / 4
  }

  /** The byte made of the low two bits of `x` and all six bits of `y`. */
  function Third(x: Sextet, y: Sextet): Byte {
    assert x % 4 < 4;
    (x % 4) * 64 + y
  }

  function Symbols(v: seq<Sextet>): (s: string)
    ensures |s| == |v| && InAlphabet(s)
    ensures forall i :: 0 <= i < |v| ==> s[i] == Symbol(v[i])
  {
    if v == [] then [] else [Symbol(v[0])] + Symbols(v[1..])
  }

  function Values(s: string): (v: seq<Sextet>)
    requires InAlphabet(s)
    ensures |v| == |s|
    ensures forall i :: 0 <= i < |s| ==> v[i] == SextetOf(s[i])
  {
    if s == [] then [] else [SextetOf(s[0])] + Values(s[1..])
  }

  /** The `=` characters that complete the last 4-character group. */
  function Padding(n: nat): string {
    if n % 3 == 1 then "==" else if n % 3 == 2 then "=" else ""
  }

  /** Base64 with padding: four alphabet characters for every three bytes. */
  function Encode(b: seq<Byte>): (s: string)
    ensures |s| == 4 * ((|b| + 2) / 3)
  {
    EncodedLength(|b|);
    Symbols(Sextets(b)) + Padding(|b|)
  }

  /** The 6-bit groups of `n` bytes and their padding fill whole
      4-character groups. */
  lemma EncodedLength(n: nat)
    ensures (8 * n + 5) / 6 + |Padding(n)| == 4 * ((n + 2) / 3)
  {
    var q, r := n / 3, n % 3;
    assert n == 3 * q + r;
    assert 8 * n + 5 == 6 * (4 * q) + (8 * r + 5);
    assert n + 2 == 3 * q + (r + 2);
    if r == 0 {
      assert (8 * n + 5) / 6 == 4 * q && (n + 2) / 3 == q;
    } else if r == 1 {
      assert (8 * n + 5) / 6 == 4 * q + 2 && (n + 2) / 3 == q + 1;
    } else {
      assert (8 * n + 5) / 6 == 4 * q + 3 && (n + 2) / 3 == q + 1;
    }
  }

  predicate IsAsciiWhitespace(c: char) {
    c == '\t' || c == '\n' || c == '\U{000C}' || c == '\r' || c == ' '
  }

  function RemoveAsciiWhitespace(s: string): (r: string)
    ensures |r| <= |s|
  {
    if s == [] then []
    else if IsAsciiWhitespace(s[0]) then RemoveAsciiWhitespace(s[1..])
    else [s[0]] + RemoveAsciiWhitespace(s[1..])
  }

  /** When the length is a multiple of four, one or two final `=` go. */
  function RemovePadding(s: string): string {
    if |s| % 4 != 0 then s
    else if |s| >= 2 && s[|s| - 2..] == "==" then s[..|s| - 2]
    else if |s| >= 1 && s[|s| - 1] == '=' then s[..|s| - 1]
    else s
  }

  /** Forgiving-base64 decode; `None` is the failure `atob` throws for. */
  function Decode(s: string): (r: Option<seq<Byte>>)
  {
    var t := RemovePadding(RemoveAsciiWhitespace(s));
    if |t| % 4 == 1 || !InAlphabet(t) then None else Some(Bytes(Values(t)))
  }

  /** A binary string: every character stands for one byte. */
  predicate IsLatin1(s: string) {
    forall i :: 0 <= i < |s| ==> s[i] as int < 256
  }

  function CodesOf(s: string): (b: seq<Byte>)
    requires IsLatin1(s)
    ensures |b| == |s| && forall i :: 0 <= i < |s| ==> b[i] == s[i] as int
  {
    if s == [] then [] else [s[0] as int] + CodesOf(s[1..])
  }

  function CharsOf(b: seq<Byte>): (s: string)
    ensures |s| == |b| && forall i :: 0 <= i < |b| ==> s[i] as int == b[i]
  {
    if b == [] then [] else [b[0] as char] + CharsOf(b[1..])
  }

  /** `btoa(s)`: fails (throws) exactly when some character is above 255. */
  function Btoa(s: string): (r: Option<string>)
    ensures r.Some? <==> IsLatin1(s)
    ensures r.Some? ==> |r.value| == 4 * ((|s| + 2) / 3)
  {
    if IsLatin1(s) then Some(Encode(CodesOf(s))) else None
  }

  /** `atob(s)`: the decoded bytes as a binary string, or failure. */
  function Atob(s: string): (r: Option<string>)
    ensures r.Some? ==> IsLatin1(r.value)
    ensures r.Some? ==> |r.value| == 3 * |RemovePadding(RemoveAsciiWhitespace(s))| / 4
    ensures (exists i :: 0 <= i < |s| && Foreign(s[i])) ==> r.None?
  {
    ForeignRejected(s);
    DecodeLength(s);
    match Decode(s)
    case None => None
    case Some(b) => Some(CharsOf(b))
  }

  /** A character that is neither ASCII whitespace, padding, nor in the
      alphabet. */
  predicate Foreign(c: char) {
    !IsAsciiWhitespace(c) && c != '=' && SextetOf(c) < 0
  }

  /** One foreign character anywhere makes the decode fail: whitespace
      removal keeps it and padding removal drops only `=`. */
  lemma ForeignRejected(s: string)
    ensures (exists i :: 0 <= i < |s| && Foreign(s[i])) ==> Decode(s).None?
  {
    if exists i :: 0 <= i < |s| && Foreign(s[i]) {
      var i :| 0 <= i < |s| && Foreign(s[i]);
      var k := ForeignKept(s, i);
      PaddingKeepsForeign(RemoveAsciiWhitespace(s), k);
    }
  }

  lemma PaddingKeepsForeign(u: string, k: nat)
    requires k < |u| && Foreign(u[k])
    ensures !InAlphabet(RemovePadding(u))
  {
    var t := RemovePadding(u);
    assert t == u[..|t|];
    assert k < |t|;
    assert t[k] == u[k] && SextetOf(t[k]) < 0;
  }

  lemma DecodeLength(s: string)
    ensures Decode(s).Some? ==> |Decode(s).value| == 3 * |RemovePadding(RemoveAsciiWhitespace(s))| / 4
  {
    var t := RemovePadding(RemoveAsciiWhitespace(s));
    if |t| % 4 != 1 && InAlphabet(t) {
      BytesLength(Values(t));
    }
  }

  /** Where a non-whitespace character lands after whitespace removal. */
  lemma {:induction false} ForeignKept(s: string, i: nat) returns (k: nat)
    requires i < |s| && !IsAsciiWhitespace(s[i])
    ensures k < |RemoveAsciiWhitespace(s)| && RemoveAsciiWhitespace(s)[k] == s[i]
    decreases i
  {
    if i == 0 {
      k := 0;
    } else {
      var k' := ForeignKept(s[1..], i - 1);
      k := if IsAsciiWhitespace(s[0]) then k' else k' + 1;
    }
  }

  lemma GroupRoundTrip(b0: Byte, b1: Byte, b2: Byte)
    ensures var g := Group(b0, b1, b2);
      First(g[0], g[1]) == b0 && Second(g[1], g[2]) == b1 && Third(g[2], g[3]) == b2
  {
  }

  /** The 6-bit groups carry exactly the input bytes. */
  lemma {:induction false} BytesOfSextets(b: seq<Byte>)
    ensures Bytes(Sextets(b)) == b
    decreases |b|
  {
    if 1 <= |b| < 3 {
      BytesOfShortSextets(b);
    } else if |b| >= 3 {
      BytesOfSextets(b[3..]);
      BytesOfSextetsStep(b[0], b[1], b[2], b[3..]);
      assert b == [b[0], b[1], b[2]] + b[3..];
    }
  }

  lemma BytesOfShortSextets(b: seq<Byte>)
    requires 1 <= |b| < 3
    ensures Bytes(Sextets(b)) == b
  {
    var b1: Byte := if |b| == 2 then b[1] else 0;
    var g := Group(b[0], b1, 0);
    GroupRoundTrip(b[0], b1, 0);
    if |b| == 1 {
      assert Sextets(b) == g[..2];
      assert Bytes(g[..2]) == [First(g[0], g[1])];
    } else {
      assert Sextets(b) == g[..3];
      assert Bytes(g[..3]) == [First(g[0], g[1]), Second(g[1], g[2])];
    }
  }

  lemma BytesOfSextetsStep(b0: Byte, b1: Byte, b2: Byte, rest: seq<Byte>)
    requires Bytes(Sextets(rest)) == rest
    ensures Bytes(Sextets([b0, b1, b2] + rest)) == [b0, b1, b2] + rest
  {
    var b := [b0, b1, b2] + rest;
    assert b[0] == b0 && b[1] == b1 && b[2] == b2 && b[3..] == rest;
    var g := Group(b0, b1, b2);
    var v := Sextets(b);
    assert v == g + Sextets(rest);
    GroupRoundTrip(b0, b1, b2);
    assert v[..4] == g && v[4..] == Sextets(rest);
    assert Bytes(v) == [First(g[0], g[1]), Second(g[1], g[2]), Third(g[2], g[3])] + Bytes(v[4..]);
  }

  lemma {:induction false} ValuesOfSymbols(v: seq<Sextet>)
    ensures Values(Symbols(v)) == v
  {
    forall i | 0 <= i < |v| ensures Values(Symbols(v))[i] == v[i] {
      SextetOfSymbol(v[i]);
    }
  }

  lemma {:induction false} NoAsciiWhitespaceKept(s: string)
    requires forall i :: 0 <= i < |s| ==> !IsAsciiWhitespace(s[i])
    ensures RemoveAsciiWhitespace(s) == s
  {
    if s != [] {
      NoAsciiWhitespaceKept(s[1..]);
    }
  }

  /** Every character of an encoding is in the alphabet or is `=`. */
  lemma EncodeHasNoAsciiWhitespace(b: seq<Byte>)
    ensures forall i :: 0 <= i < |Encode(b)| ==> !IsAsciiWhitespace(Encode(b)[i])
  {
    var body := Symbols(Sextets(b));
    var e := Encode(b);
    forall i | 0 <= i < |e| ensures !IsAsciiWhitespace(e[i]) {
      if i < |body| {
        assert e[i] == body[i] && SextetOf(body[i]) >= 0;
      } else {
        assert e[i] == Padding(|b|)[i - |body|];
      }
    }
  }

  /** The decoder strips exactly the padding the encoder appended. */
  lemma RemovePaddingOfEncode(b: seq<Byte>)
    ensures RemovePadding(Encode(b)) == Symbols(Sextets(b))
  {
    var body := Symbols(Sextets(b));
    var e := Encode(b);
    WholeGroups((|b| + 2) / 3, |e|);
    PartialGroupNotEmpty(|b|, |body|);
    assert e == body + Padding(|b|);
    PaddingRemoved(body, |b|, e);
  }

  lemma WholeGroups(k: nat, m: nat)
    requires m == 4 * k
    ensures m % 4 == 0
  {
  }

  lemma PartialGroupNotEmpty(n: nat, m: nat)
    requires m == (8 * n + 5) / 6
    ensures n % 3 != 0 ==> m >= 1
  {
  }

  lemma PaddingRemoved(body: string, n: nat, e: string)
    requires InAlphabet(body) && e == body + Padding(n) && |e| % 4 == 0
    requires n % 3 != 0 ==> |body| >= 1
    ensures RemovePadding(e) == body
  {
    if n % 3 == 0 {
      UnpaddedEnd(body, e);
    } else if n % 3 == 1 {
      DoublePadEnd(body, e);
    } else {
      SinglePadEnd(body, e);
    }
  }

  lemma UnpaddedEnd(body: string, e: string)
    requires InAlphabet(body) && e == body && |e| % 4 == 0
    ensures RemovePadding(e) == body
  {
    if |e| >= 1 {
      assert SextetOf(e[|e| - 1]) >= 0;
    }
  }

  lemma DoublePadEnd(body: string, e: string)
    requires e == body + "==" && |e| % 4 == 0
    ensures RemovePadding(e) == body
  {
    assert e[|e| - 2..] == "==";
    assert e[..|e| - 2] == body;
  }

  lemma SinglePadEnd(body: string, e: string)
    requires InAlphabet(body) && |body| >= 1 && e == body + "=" && |e| % 4 == 0
    ensures RemovePadding(e) == body
  {
    assert e[|e| - 2] == body[|body| - 1];
    assert SextetOf(e[|e| - 2]) >= 0;
    assert e[|e| - 2..] != "==";
    assert e[|e| - 1] == '=';
    assert e[..|e| - 1] == body;
  }

  /** `atob` inverts `btoa`: the padding and the alphabet are exactly what the
      forgiving decoder accepts and removes. */
  lemma {:induction false} AtobOfBtoa(s: string)
    requires IsLatin1(s)
    ensures Btoa(s).Some? && Atob(Btoa(s).value) == Some(s)
  {
    var b := CodesOf(s);
    var v := Sextets(b);
    EncodeHasNoAsciiWhitespace(b);
    NoAsciiWhitespaceKept(Encode(b));
    RemovePaddingOfEncode(b);
    ValuesOfSymbols(v);
    BytesOfSextets(b);
    assert Decode(Encode(b)) == Some(b);
    assert CharsOf(b) == s;
  }
}
