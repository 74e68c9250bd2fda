/** The hand-written Base64 and base64url codecs shared in form by JwtUtil and PasswordUtil.
    A byte string is a string whose characters are below 256. */
module Base64 {
  import opened Bits

  ghost predicate IsBytes(s: string) { forall i :: 0 <= i < |s| ==> s[i] as int < 256 }

  /** The encoding table "A-Za-z0-9+/". */
  function TableChar(v: nat): char
    requires v < 64
  {
    if v < 26 then (65 + v) as char
    else if v < 52 then (97 + (v - 26)) as char
    else if v < 62 then (48 + (v - 52)) as char
    else if v == 62 then '+'
    else '/'
  }

  /** The 256-entry decoding table: 255 marks a foreign character and '=' counts as 0. */
  function DecodeTable(c: char): (v: nat)
    ensures v < 64 || v == 255
  {
    if 'A' <= c <= 'Z' then c as int - 65
    else if 'a' <= c <= 'z' then c as int - 97 + 26
    else if '0' <= c <= '9' then c as int - 48 + 52
    else if c == '+' then 62
    else if c == '/' then 63
    else if c == '=' then 0
    else 255
  }

  /** Section 4 of RFC 4648: one to three bytes as four characters. */
  function EncodeGroup(g: string): string
    requires 1 <= |g| <= 3
  {
    var s0, s1, s2 := Byte(g, 0), Byte(g, 1), Byte(g, 2);
    [TableChar(s0 / 4), TableChar((s0 % 4) * 16 + s1 / 16),
     if 1 < |g| then TableChar((s1 % 16) * 4 + s2 / 64) else '=',
     if 2 < |g| then TableChar(s2 % 64) else '=']
  }

  /** The k-th byte of a group, 0 past its end. */
  function Byte(g: string, k: nat): (b: nat)
    ensures b < 256
  {
    if k < |g| then g[k] as int % 256 else 0
  }

  function Encode(data: string): string
  {
    if data == "" then ""
    else if |data| <= 3 then EncodeGroup(data)
    else EncodeGroup(data[..3]) + Encode(data[3..])
  }

  /** Four characters, the first two in the table, as one to three bytes. A third character
      outside the table counts as padding, and so does a fourth. */
  function DecodeGroup(g: string): string
    requires |g| == 4
  {
    var a, b, c, d := DecodeTable(g[0]), DecodeTable(g[1]), DecodeTable(g[2]), DecodeTable(g[3]);
    [((a * 4 + b / 16) % 256) as char] +
    if g[2] != '=' && c != 255 then
      [((b % 16) * 16 + c / 4) as char] +
      if g[3] != '=' && d != 255 then [((c % 4) * 64 + d) as char] else ""
    else ""
  }

  function Decode(s: string): string
  {
    if |s| < 4 || DecodeTable(s[0]) == 255 || DecodeTable(s[1]) == 255 then ""
    else DecodeGroup(s[..4]) + Decode(s[4..])
  }

  function UrlChar(c: char): char { if c == '+' then '-' else if c == '/' then '_' else c }

  function UnUrlChar(c: char): char { if c == '-' then '+' else if c == '_' then '/' else c }

  function ToUrl(s: string): string { seq(|s|, i requires 0 <= i < |s| => UrlChar(s[i])) }

  function FromUrl(s: string): string { seq(|s|, i requires 0 <= i < |s| => UnUrlChar(s[i])) }

  /** Section 5 of RFC 4648: two characters are spelled differently, and the rest alike. */
  lemma UrlSpelling(s: string, i: nat)
    requires i < |s|
    ensures |ToUrl(s)| == |FromUrl(s)| == |s|
    ensures ToUrl(s)[i] == match s[i] case '+' => '-' case '/' => '_' case c => c
    ensures FromUrl(s)[i] == match s[i] case '-' => '+' case '_' => '/' case c => c
  {
  }

  function StripPad(s: string): string
  {
    if s != "" && s[|s| - 1] == '=' then StripPad(s[..|s| - 1]) else s
  }

  function Pad(s: string): string
    decreases (4 - |s| % 4) % 4
  {
    if |s| % 4 != 0 then Pad(s + "=") else s
  }

  function UrlEncode(data: string): string { StripPad(ToUrl(Encode(data))) }

  function UrlDecode(input: string): string { Decode(Pad(FromUrl(input))) }

  // ----- the loops of the source -----

  function Sextet(n: nat, shift: nat): (v: nat)
    ensures v < 64
  {
    AndMask(Shr(n, shift), 6);
    And(Shr(n, shift), 0x3F)
  }

  /** The body of the encoding loop: the 24-bit word is built by shift and OR, and its sextets
      are cut out by shift and mask. */
  method EncodeStep(data: string, i: nat) returns (chunk: string)
    requires i < |data| && IsBytes(data)
    ensures chunk == EncodeGroup(if |data| - i <= 3 then data[i..] else data[i..i + 3])
  {
    ghost var g := if |data| - i <= 3 then data[i..] else data[i..i + 3];
    var n := Word24(data, i);
    var v0, v1, v2, v3 := CutSextets(Byte(g, 0), Byte(g, 1), Byte(g, 2), n);
    chunk := [TableChar(v0)];
    chunk := chunk + [TableChar(v1)];
    chunk := chunk + [if i + 1 < |data| then TableChar(v2) else '='];
    chunk := chunk + [if i + 2 < |data| then TableChar(v3) else '='];
  }

  method Word24(data: string, i: nat) returns (n: nat)
    requires i < |data| && IsBytes(data)
    ensures n == Byte(data[i..], 0) * 65536 + Byte(data[i..], 1) * 256 + Byte(data[i..], 2)
  {
    hide Or, Shl;
    Concat24(Byte(data[i..], 0), Byte(data[i..], 1), Byte(data[i..], 2));
    n := Shl(data[i] as int, 16);
    if i + 1 < |data| { n := Or(n, Shl(data[i + 1] as int, 8)); }
    if i + 2 < |data| { n := Or(n, data[i + 2] as int); }
  }

  method CutSextets(ghost s0: nat, ghost s1: nat, ghost s2: nat, n: nat)
      returns (v0: nat, v1: nat, v2: nat, v3: nat)
    requires s0 < 256 && s1 < 256 && s2 < 256 && n == s0 * 65536 + s1 * 256 + s2
    ensures v0 == s0 / 4 && v1 == (s0 % 4) * 16 + s1 / 16 && v2 == (s1 % 16) * 4 + s2 / 64 && v3 == s2 % 64
  {
    Sextets(n);
    Digits24(s0, s1, s2, n);
    v0, v1, v2, v3 := Sextet(n, 18), Sextet(n, 12), Sextet(n, 6), Sextet(n, 0);
  }

  method Base64Encode(data: string) returns (result: string)
    requires IsBytes(data)
    ensures result == Encode(data)
  {
    result := "";
    var i := 0;
    assert data[0..] == data;
    hide EncodeGroup;
    while i < |data|
      invariant 0 <= i
      invariant if i < |data| then result + Encode(data[i..]) == Encode(data) else result == Encode(data)
    {
      var chunk := EncodeStep(data, i);
      EncodeNext(data, i, result, chunk);
      result := result + chunk;
      i := i + 3;
    }
  }

  lemma EncodeNext(data: string, i: nat, done: string, chunk: string)
    requires i < |data|
    requires chunk == EncodeGroup(if |data| - i <= 3 then data[i..] else data[i..i + 3])
    ensures done + Encode(data[i..]) == if i + 3 < |data| then done + chunk + Encode(data[i + 3..]) else done + chunk
  {
    hide EncodeGroup;
    var rest := data[i..];
    if |rest| > 3 {
      assert rest[..3] == data[i..i + 3] && rest[3..] == data[i + 3..];
      assert done + (chunk + Encode(rest[3..])) == (done + chunk) + Encode(rest[3..]);
    }
  }

  /** The body of the decoding loop, with the shifts and masks of the source. */
  method DecodeStep(g: string) returns (chunk: string)
    requires |g| == 4 && DecodeTable(g[0]) != 255 && DecodeTable(g[1]) != 255
    ensures chunk == DecodeGroup(g)
  {
    var a, b, c, d := DecodeTable(g[0]), DecodeTable(g[1]), DecodeTable(g[2]), DecodeTable(g[3]);
    var b0, b1, b2 := CutBytes(a, b, if c == 255 then 0 else c, if d == 255 then 0 else d);
    chunk := [b0 as char];
    if g[2] != '=' && c != 255 {
      chunk := chunk + [b1 as char];
      if g[3] != '=' && d != 255 {
        chunk := chunk + [b2 as char];
      }
    }
  }

  method CutBytes(a: nat, b: nat, c: nat, d: nat) returns (b0: nat, b1: nat, b2: nat)
    requires a < 64 && b < 64 && c < 64 && d < 64
    ensures b0 == a * 4 + b / 16 && b1 == (b % 16) * 16 + c / 4 && b2 == (c % 4) * 64 + d
  {
    GroupBytes(a, b, c, d);
    b0 := Or(Shl(a, 2), Shr(b, 4));
    b1 := Or(Shl(And(b, 0x0F), 4), Shr(c, 2));
    b2 := Or(Shl(And(c, 0x03), 6), d);
  }

  method Base64Decode(data: string) returns (result: string)
    ensures result == Decode(data)
  {
    result := "";
    var i := 0;
    while i + 3 < |data|
      invariant 0 <= i <= |data|
      invariant result + Decode(data[i..]) == Decode(data)
    {
      if DecodeTable(data[i]) == 255 || DecodeTable(data[i + 1]) == 255 { break; }
      var chunk := DecodeStep(data[i..i + 4]);
      ghost var rest := data[i..];
      assert rest[..4] == data[i..i + 4] && rest[4..] == data[i + 4..];
      assert result + (chunk + Decode(rest[4..])) == (result + chunk) + Decode(rest[4..]);
      result := result + chunk;
      i := i + 4;
    }
    assert Decode(data[i..]) == "";
  }

  method Base64UrlEncode(data: string) returns (result: string)
    requires IsBytes(data)
    ensures result == UrlEncode(data)
  {
    result := Base64Encode(data);
    ghost var plain := result;
    for i := 0 to |result|
      invariant |result| == |plain|
      invariant forall j :: 0 <= j < i ==> result[j] == UrlChar(plain[j])
      invariant forall j :: i <= j < |plain| ==> result[j] == plain[j]
    {
      if result[i] == '+' {
        result := result[i := '-'];
      } else if result[i] == '/' {
        result := result[i := '_'];
      }
    }
    assert result == ToUrl(plain);
    while result != "" && result[|result| - 1] == '='
      invariant StripPad(result) == StripPad(ToUrl(plain))
      decreases |result|
    {
      result := result[..|result| - 1];
    }
  }

  /** The in-place substitution of base64url characters. */
  method Respell(input: string) returns (data: string)
    ensures data == FromUrl(input)
  {
    data := input;
    for i := 0 to |data|
      invariant |data| == |input|
      invariant forall j :: 0 <= j < i ==> data[j] == UnUrlChar(input[j])
      invariant forall j :: i <= j < |data| ==> data[j] == input[j]
    {
      if data[i] == '-' {
        data := data[i := '+'];
      } else if data[i] == '_' {
        data := data[i := '/'];
      }
    }
    assert data == FromUrl(input);
  }

  method Base64UrlDecode(input: string) returns (result: string)
    ensures result == UrlDecode(input)
  {
    var data := Respell(input);
    hide FromUrl, Decode;
    while |data| % 4 != 0
      invariant Pad(data) == Pad(FromUrl(input))
      decreases (4 - |data| % 4) % 4
    {
      data := data + "=";
    }
    result := Base64Decode(data);
  }

  // ----- correctness -----

  lemma TableInverse(v: nat)
    requires v < 64
    ensures DecodeTable(TableChar(v)) == v && TableChar(v) !in {'=', '-', '_', '.', '$'}
  {
  }

  /** The alphabet of table 1 of RFC 4648 in its order, and the decoding table as its inverse. */
  lemma Alphabet(v: nat, c: char)
    requires v < 64
    ensures TableChar(v) as int ==
            if v < 26 then 'A' as int + v
            else if v < 52 then 'a' as int + v - 26
            else if v < 62 then '0' as int + v - 52
            else if v == 62 then '+' as int else '/' as int
    ensures DecodeTable(c) == v <==> c == TableChar(v) || (c == '=' && v == 0)
    ensures DecodeTable(c) == 255 <==> !IsTableChar(c) && c != '='
  {
  }

  /** A group is the number that its bytes make, zero bytes for the missing ones, cut into sextets. */
  lemma {:induction false} EncodesNumber(g: string, n: nat)
    requires 1 <= |g| <= 3 && IsBytes(g)
    requires n == g[0] as int * 65536 + (if |g| > 1 then g[1] as int * 256 else 0) + if |g| > 2 then g[2] as int else 0
    ensures EncodeGroup(g) == [TableChar(n / 262144 % 64), TableChar(n / 4096 % 64),
                               if |g| > 1 then TableChar(n / 64 % 64) else '=',
                               if |g| > 2 then TableChar(n % 64) else '=']
  {
    var s0, s1, s2 := Byte(g, 0), Byte(g, 1), Byte(g, 2);
    assert n == s0 * 65536 + s1 * 256 + s2;
    Digits24(s0, s1, s2, n);
    GroupOf(g, n / 262144 % 64, n / 4096 % 64, n / 64 % 64, n % 64);
    hide EncodeGroup, TableChar, Byte;
  }

  lemma GroupOf(g: string, v0: nat, v1: nat, v2: nat, v3: nat)
    requires 1 <= |g| <= 3 && v0 == Byte(g, 0) / 4 && v1 == (Byte(g, 0) % 4) * 16 + Byte(g, 1) / 16
    requires v2 == (Byte(g, 1) % 16) * 4 + Byte(g, 2) / 64 && v3 == Byte(g, 2) % 64
    ensures v0 < 64 && v1 < 64 && v2 < 64 && v3 < 64
    ensures EncodeGroup(g) == [TableChar(v0), TableChar(v1), if |g| > 1 then TableChar(v2) else '=',
                               if |g| > 2 then TableChar(v3) else '=']
  {
    hide TableChar, Byte;
  }

  lemma ThreeBytes(a: nat, b: nat, c: nat, d: nat)
    requires a < 64 && b < 64 && c < 64 && d < 64
    ensures var n := a * 262144 + b * 4096 + c * 64 + d;
            n / 65536 == a * 4 + b / 16 && n / 256 % 256 == (b % 16) * 16 + c / 4 && n % 256 == (c % 4) * 64 + d
  {
    var n := a * 262144 + b * 4096 + c * 64 + d;
    var s0, s1, s2 := a * 4 + b / 16, (b % 16) * 16 + c / 4, (c % 4) * 64 + d;
    assert n == s0 * 65536 + s1 * 256 + s2;
    DivModUnique(n, 65536, s0, s1 * 256 + s2);
    DivModUnique(n, 256, s0 * 256 + s1, s2);
    DivModUnique(s0 * 256 + s1, 256, s0, s1);
  }

  /** Decoding any text, group by group: it ends where a group is cut short or does not begin with two
      characters of the table; else the group is the number that its sextets make, cut into bytes,
      as many as stand before the first padding or foreign character. */
  lemma {:induction false} DecodesExactly(s: string)
    ensures |s| < 4 ==> Decode(s) == ""
    ensures |s| >= 4 ==>
              var a, b, c, d := DecodeTable(s[0]), DecodeTable(s[1]), DecodeTable(s[2]), DecodeTable(s[3]);
              if a == 255 || b == 255 then Decode(s) == ""
              else
                var third, fourth := s[2] != '=' && c != 255, s[3] != '=' && d != 255;
                var n := a * 262144 + b * 4096 + (if third then c * 64 else 0) + if third && fourth then d else 0;
                Decode(s) == [(n / 65536) as char] + (if third then [(n / 256 % 256) as char] else []) +
                             (if third && fourth then [(n % 256) as char] else []) + Decode(s[4..])
  {
    if |s| >= 4 && DecodeTable(s[0]) != 255 && DecodeTable(s[1]) != 255 {
      var a, b, c, d := DecodeTable(s[0]), DecodeTable(s[1]), DecodeTable(s[2]), DecodeTable(s[3]);
      hide DecodeGroup, DecodeTable;
      GroupIs(s[..4], a, b, c, d);
    }
  }

  lemma GroupParts(g: string, a: nat, b: nat, c: nat, d: nat)
    requires |g| == 4 && a == DecodeTable(g[0]) < 64 && b == DecodeTable(g[1]) < 64
    requires c == DecodeTable(g[2]) && d == DecodeTable(g[3])
    ensures var third, fourth := g[2] != '=' && c != 255, g[3] != '=' && d != 255;
            DecodeGroup(g) ==
              [(a * 4 + b / 16) as char] + (if third then [((b % 16) * 16 + c / 4) as char] else []) +
              (if third && fourth then [((c % 4) * 64 + d) as char] else [])
  {
    hide DecodeTable;
  }

  lemma GroupIs(g: string, a: nat, b: nat, c: nat, d: nat)
    requires |g| == 4 && a == DecodeTable(g[0]) < 64 && b == DecodeTable(g[1]) < 64
    requires c == DecodeTable(g[2]) && d == DecodeTable(g[3])
    ensures var third, fourth := g[2] != '=' && c != 255, g[3] != '=' && d != 255;
            var n := a * 262144 + b * 4096 + (if third then c * 64 else 0) + if third && fourth then d else 0;
            DecodeGroup(g) == [(n / 65536) as char] + (if third then [(n / 256 % 256) as char] else []) +
                              (if third && fourth then [(n % 256) as char] else [])
  {
    var third, fourth := g[2] != '=' && c != 255, g[3] != '=' && d != 255;
    ThreeBytes(a, b, if third then c else 0, if third && fourth then d else 0);
    GroupParts(g, a, b, c, d);
    hide DecodeTable, DecodeGroup;
  }

  lemma PowersOfTwo()
    ensures Pow2(0) == 1 && Pow2(2) == 4 && Pow2(4) == 16 && Pow2(6) == 64 && Pow2(8) == 256
    ensures Pow2(12) == 4096 && Pow2(16) == 65536 && Pow2(18) == 262144
  {
    assert Pow2(12) == 64 * Pow2(6);
    assert Pow2(16) == 256 * Pow2(8);
    assert Pow2(18) == 64 * Pow2(12);
  }

  lemma SextetIs(n: nat, shift: nat)
    ensures Sextet(n, shift) == n / Pow2(shift) % 64
  {
    AndMask(Shr(n, shift), 6);
  }

  lemma Sextets(n: nat)
    ensures Sextet(n, 18) == n / 262144 % 64 && Sextet(n, 12) == n / 4096 % 64
    ensures Sextet(n, 6) == n / 64 % 64 && Sextet(n, 0) == n % 64
  {
    PowersOfTwo();
    SextetIs(n, 18);
    SextetIs(n, 12);
    SextetIs(n, 6);
    SextetIs(n, 0);
  }

  lemma Concat24(s0: nat, s1: nat, s2: nat)
    requires s0 < 256 && s1 < 256 && s2 < 256
    ensures Shl(s0, 16) == s0 * 65536
    ensures Or(Shl(s0, 16), Shl(s1, 8)) == s0 * 65536 + s1 * 256
    ensures Or(Or(Shl(s0, 16), Shl(s1, 8)), s2) == s0 * 65536 + s1 * 256 + s2
  {
    PowersOfTwo();
    OrDisjoint(s0, s1 * 256, 16);
    OrDisjoint(s0 * 256 + s1, s2, 8);
  }

  lemma Digits24(s0: nat, s1: nat, s2: nat, n: nat)
    requires s0 < 256 && s1 < 256 && s2 < 256 && n == s0 * 65536 + s1 * 256 + s2
    ensures n / 262144 % 64 == s0 / 4
    ensures n / 4096 % 64 == (s0 % 4) * 16 + s1 / 16
    ensures n / 64 % 64 == (s1 % 16) * 4 + s2 / 64
    ensures n % 64 == s2 % 64
  {
    DivModUnique(n, 262144, s0 / 4, (s0 % 4) * 65536 + s1 * 256 + s2);
    DivModUnique(n, 4096, s0 * 16 + s1 / 16, (s1 % 16) * 256 + s2);
    DivModUnique(n / 4096, 64, s0 / 4, (s0 % 4) * 16 + s1 / 16);
    DivModUnique(n, 64, s0 * 1024 + s1 * 4 + s2 / 64, s2 % 64);
    DivModUnique(n / 64, 64, s0 * 16 + s1 / 16, (s1 % 16) * 4 + s2 / 64);
  }

  /** The three bytes rebuilt from four sextets. */
  lemma {:induction false} GroupBytes(a: nat, b: nat, c: nat, d: nat)
    requires a < 64 && b < 64 && c < 64 && d < 64
    ensures Or(Shl(a, 2), Shr(b, 4)) == a * 4 + b / 16
    ensures Or(Shl(And(b, 0x0F), 4), Shr(c, 2)) == (b % 16) * 16 + c / 4
    ensures Or(Shl(And(c, 0x03), 6), d) == (c % 4) * 64 + d
  {
    PowersOfTwo();
    OrDisjoint(a, b / 16, 2);
    AndMask(b, 4);
    OrDisjoint(b % 16, c / 4, 4);
    AndMask(c, 2);
    OrDisjoint(c % 4, d, 6);
  }

  lemma {:induction false} GroupRoundTrip(g: string)
    requires 1 <= |g| <= 3 && IsBytes(g)
    ensures var e := EncodeGroup(g);
            DecodeTable(e[0]) != 255 && DecodeTable(e[1]) != 255 && DecodeGroup(e) == g
  {
    var s0, s1, s2 := Byte(g, 0), Byte(g, 1), Byte(g, 2);
    var a, b, c, d := s0 / 4, (s0 % 4) * 16 + s1 / 16, (s1 % 16) * 4 + s2 / 64, s2 % 64;
    TableInverse(a);
    TableInverse(b);
    TableInverse(c);
    TableInverse(d);
    SextetsToBytes(s0, s1, s2);
    BytesOf(g);
    hide TableChar, DecodeTable, DecodeGroup, Byte;
    DecodeGroupOf(EncodeGroup(g), a, b, c, d, |g|);
  }

  lemma BytesOf(g: string)
    requires 1 <= |g| <= 3 && IsBytes(g)
    ensures [Byte(g, 0) as char, Byte(g, 1) as char, Byte(g, 2) as char][..|g|] == g
  {
  }

  lemma DecodeGroupOf(e: string, a: nat, b: nat, c: nat, d: nat, n: nat)
    requires |e| == 4 && 1 <= n <= 3 && a < 64 && b < 64 && c < 64 && d < 64
    requires DecodeTable(e[0]) == a && DecodeTable(e[1]) == b
    requires if n == 1 then e[2] == '=' else e[2] != '=' && DecodeTable(e[2]) == c
    requires if n == 3 then e[3] != '=' && DecodeTable(e[3]) == d else e[3] == '='
    ensures DecodeGroup(e) ==
        [(a * 4 + b / 16) as char, ((b % 16) * 16 + c / 4) as char, ((c % 4) * 64 + d) as char][..n]
  {
  }

  lemma SextetsToBytes(s0: nat, s1: nat, s2: nat)
    requires s0 < 256 && s1 < 256 && s2 < 256
    ensures var a, b, c, d := s0 / 4, (s0 % 4) * 16 + s1 / 16, (s1 % 16) * 4 + s2 / 64, s2 % 64;
            a * 4 + b / 16 == s0 && (b % 16) * 16 + c / 4 == s1 && (c % 4) * 64 + d == s2
  {
    assert ((s0 % 4) * 16 + s1 / 16) / 16 == s0 % 4;
    assert ((s0 % 4) * 16 + s1 / 16) % 16 == s1 / 16;
    assert ((s1 % 16) * 4 + s2 / 64) / 4 == s1 % 16;
    assert ((s1 % 16) * 4 + s2 / 64) % 4 == s2 / 64;
  }

  /** Section 4 of RFC 4648: decoding an encoding gives the bytes back. */
  lemma {:induction false} RoundTrip(x: string)
    requires IsBytes(x)
    ensures Decode(Encode(x)) == x
    decreases |x|
  {
    if x != "" {
      var g := if |x| <= 3 then x else x[..3];
      var rest := if |x| <= 3 then "" else x[3..];
      GroupRoundTrip(g);
      RoundTrip(rest);
      var e := EncodeGroup(g);
      assert Encode(x) == e + Encode(rest);
      assert (e + Encode(rest))[..4] == e && (e + Encode(rest))[4..] == Encode(rest);
      assert x == g + rest;
    }
  }

  function PadCount(n: nat): nat { (3 - n % 3) % 3 }

  predicate IsTableChar(c: char)
  {
    'A' <= c <= 'Z' || 'a' <= c <= 'z' || '0' <= c <= '9' || c == '+' || c == '/'
  }

  /** An encoding is table characters followed by exactly the padding its length calls for. */
  lemma {:induction false} EncodeShape(x: string)
    ensures |Encode(x)| == (|x| + 2) / 3 * 4
    ensures Shape(Encode(x), PadCount(|x|))
  {
    if |x| > 3 {
      EncodeShape(x[3..]);
      TableKinds(x[..3]);
      assert Encode(x) == EncodeGroup(x[..3]) + Encode(x[3..]);
      hide EncodeGroup, Encode, Shape;
      assert |x[3..]| + 3 == |x|;
      PadCountPeriod(|x[3..]|);
      hide PadCount;
      ShapeAppend(EncodeGroup(x[..3]), Encode(x[3..]), PadCount(|x[3..]|));
    } else if x != "" {
      TableKinds(x);
      hide EncodeGroup;
    }
  }

  lemma PadCountPeriod(n: nat)
    ensures PadCount(n + 3) == PadCount(n) && (n + 3 + 2) / 3 == (n + 2) / 3 + 1
  {
  }

  ghost predicate Shape(e: string, pad: nat)
  {
    pad <= |e| &&
    (forall i :: 0 <= i < |e| - pad ==> IsTableChar(e[i])) &&
    forall i :: |e| - pad <= i < |e| ==> e[i] == '='
  }

  lemma ShapeAppend(g: string, rest: string, pad: nat)
    requires Shape(g, 0) && Shape(rest, pad)
    ensures Shape(g + rest, pad)
  {
  }

  lemma TableKinds(g: string)
    requires 1 <= |g| <= 3
    ensures Shape(EncodeGroup(g), PadCount(|g|))
  {
    TableIsTable(Byte(g, 0) / 4);
    TableIsTable((Byte(g, 0) % 4) * 16 + Byte(g, 1) / 16);
    TableIsTable((Byte(g, 1) % 16) * 4 + Byte(g, 2) / 64);
    TableIsTable(Byte(g, 2) % 64);
  }

  lemma TableIsTable(v: nat)
    requires v < 64
    ensures IsTableChar(TableChar(v))
  {
  }

  lemma {:induction false} StripPadIs(s: string, n: nat)
    requires n <= |s|
    requires forall i :: n <= i < |s| ==> s[i] == '='
    requires n > 0 ==> s[n - 1] != '='
    ensures StripPad(s) == s[..n]
    decreases |s|
  {
    if |s| > n {
      StripPadIs(s[..|s| - 1], n);
      assert s[..|s| - 1][..n] == s[..n];
    } else {
      assert s[..n] == s;
    }
  }

  /** The base64url text of x is its Base64 text without padding, respelled. */
  lemma {:induction false} UrlEncodeIs(x: string)
    ensures UrlEncode(x) == ToUrl(Encode(x)[..|Encode(x)| - PadCount(|x|)])
  {
    EncodeShape(x);
    var e, n := Encode(x), |Encode(x)| - PadCount(|x|);
    StripPadIs(ToUrl(e), n);
    assert ToUrl(e)[..n] == ToUrl(e[..n]);
  }

  predicate IsUrlChar(c: char)
  {
    'A' <= c <= 'Z' || 'a' <= c <= 'z' || '0' <= c <= '9' || c == '-' || c == '_'
  }

  /** Section 5 of RFC 4648: only the URL-safe alphabet, and ceil(4n/3) characters for n bytes. */
  lemma {:induction false} UrlAlphabet(x: string)
    ensures |UrlEncode(x)| == (4 * |x| + 2) / 3
    ensures forall i :: 0 <= i < |UrlEncode(x)| ==> IsUrlChar(UrlEncode(x)[i])
  {
    EncodeShape(x);
    UrlEncodeIs(x);
    hide Encode, UrlEncode, TableChar;
    UrlLength(|x|);
    var e, n := Encode(x), |Encode(x)| - PadCount(|x|);
    forall i | 0 <= i < n ensures IsUrlChar(UrlEncode(x)[i]) {
      assert IsTableChar(e[i]) && UrlEncode(x)[i] == UrlChar(e[i]);
    }
  }

  lemma UrlLength(n: nat)
    ensures (n + 2) / 3 * 4 - PadCount(n) == (4 * n + 2) / 3
  {
    var q := n / 3;
    assert n == 3 * q || n == 3 * q + 1 || n == 3 * q + 2;
  }

  /** Undoing the respelling and restoring the padding recovers the Base64 text. */
  lemma {:induction false} PadRestores(x: string)
    ensures Pad(FromUrl(UrlEncode(x))) == Encode(x)
  {
    EncodeShape(x);
    UrlEncodeIs(x);
    hide Encode, UrlEncode, TableChar;
    var e, n := Encode(x), |Encode(x)| - PadCount(|x|);
    var u := FromUrl(UrlEncode(x));
    assert u == e[..n] by {
      forall i | 0 <= i < n ensures u[i] == e[i] {
        assert IsTableChar(e[i]);
      }
    }
    PadTo(e, n);
  }

  lemma PadTo(e: string, n: nat)
    requires n <= |e| <= n + 2 && |e| % 4 == 0
    requires forall i :: n <= i < |e| ==> e[i] == '='
    ensures Pad(e[..n]) == e
  {
    if |e| == n {
      assert e[..n] == e;
    } else if |e| == n + 1 {
      assert e[..n] + "=" == e;
    } else {
      assert e[..n] + "=" == e[..n + 1];
      assert e[..n + 1] + "=" == e;
      assert Pad(e[..n + 1]) == e;
    }
  }

  lemma {:induction false} UrlRoundTrip(x: string)
    requires IsBytes(x)
    ensures UrlDecode(UrlEncode(x)) == x
  {
    PadRestores(x);
    RoundTrip(x);
  }

  /** Distinct byte strings have distinct base64url texts. */
  lemma {:induction false} UrlInjective(x: string, y: string)
    requires IsBytes(x) && IsBytes(y)
    ensures UrlEncode(x) == UrlEncode(y) <==> x == y
  {
    UrlRoundTrip(x);
    UrlRoundTrip(y);
  }
}
