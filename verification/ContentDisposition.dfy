/** fileContentDisposition: a quoted ASCII fallback and an RFC 8187 extended value for any file
    name, against a quote-aware reader of Content-Disposition. */
module ContentDisposition {
  import opened Wrappers
  import opened Text
  import Bits
  import Base64

  /** attr-char, section 3.2.1 of RFC 8187. */
  predicate IsAttrChar(c: char)
  {
    'a' <= c <= 'z' || 'A' <= c <= 'Z' || '0' <= c <= '9' ||
    c == '!' || c == '#' || c == '$' || c == '&' || c == '+' || c == '-' || c == '.' ||
    c == '^' || c == '_' || c == '`' || c == '|' || c == '~'
  }

  function FallbackChar(c: char): char { if ' ' <= c < 0x7f as char && c != '"' && c != '\\' then c else '_' }

  function Fallback(name: string): string { seq(|name|, i requires 0 <= i < |name| => FallbackChar(name[i])) }

  function HexDigit(v: nat): char
    requires v < 16
  {
    if v < 10 then (48 + v) as char else (65 + (v - 10)) as char
  }

  function EncodeChar(c: char): string
    requires c as int < 256
  {
    if IsAttrChar(c) then [c] else ['%', HexDigit(c as int / 16), HexDigit(c as int % 16)]
  }

  function Encoded(name: string): string
    requires Base64.IsBytes(name)
  {
    if name == "" then "" else EncodeChar(name[0]) + Encoded(name[1..])
  }

  const PARAM := "filename"
  const PARAM_EXT := "filename*"
  const FILENAME := "; " + PARAM + "="
  const FILENAME_EXT := "; " + PARAM_EXT + "="
  const CHARSET := "UTF-8"

  function Kind(inlined: bool): string { if inlined then "inline" else "attachment" }

  function Header(name: string, inlined: bool): string
    requires Base64.IsBytes(name)
  {
    Kind(inlined) + FILENAME + "\"" + Fallback(name) + "\"" + FILENAME_EXT + CHARSET + "''" + Encoded(name)
  }

  /** Printable ASCII is kept in the fallback, the quote and the backslash excepted; nothing else is. */
  lemma FallbackKeeps(name: string, i: nat)
    requires i < |name|
    ensures |Fallback(name)| == |name|
    ensures Fallback(name)[i] == if 32 <= name[i] as int <= 126 && name[i] !in ['"', '\\'] then name[i] else '_'
  {
  }

  /** The letters, the digits and the other characters of attr-char stand for themselves; any other
      byte is its two capital hexadecimal digits behind a percent sign. */
  lemma EncodesExactly(c: char)
    requires c as int < 256
    ensures var r, high, low := EncodeChar(c), c as int / 16, c as int % 16;
            if 'a' <= c <= 'z' || 'A' <= c <= 'Z' || '0' <= c <= '9' || c in "!#$&+-.^_`|~" then r == [c]
            else
              |r| == 3 && r[0] == '%' && r[1] as int == high + (if high < 10 then '0' as int else 'A' as int - 10) &&
              r[2] as int == low + if low < 10 then '0' as int else 'A' as int - 10
  {
  }

  method FileContentDisposition(name: string, inlined: bool) returns (header: string)
    requires Base64.IsBytes(name)
    ensures header == Header(name, inlined)
  {
    var fallback, encoded := BuildParts(name);
    header := Kind(inlined) + FILENAME + "\"" + fallback + "\"" + FILENAME_EXT + CHARSET + "''" + encoded;
  }

  method PercentEncode(ch: char) returns (chunk: string)
    requires ch as int < 256
    ensures chunk == EncodeChar(ch)
  {
    Bits.Nibbles(ch as int);
    hide Bits.Shr, Bits.And;
    if IsAttrChar(ch) {
      chunk := [ch];
    } else {
      chunk := ['%'];
      chunk := chunk + [HexDigit(Bits.Shr(ch as int, 4))];
      chunk := chunk + [HexDigit(Bits.And(ch as int, 0x0f))];
    }
  }

  lemma EncodedNext(name: string, i: nat, done: string)
    requires Base64.IsBytes(name) && i < |name|
    ensures done + Encoded(name[i..]) == done + EncodeChar(name[i]) + Encoded(name[i + 1..])
  {
    hide EncodeChar;
    assert name[i..][1..] == name[i + 1..];
  }

  method BuildParts(name: string) returns (fallback: string, encoded: string)
    requires Base64.IsBytes(name)
    ensures fallback == Fallback(name) && encoded == Encoded(name)
  {
    fallback, encoded := "", "";
    hide EncodeChar, FallbackChar;
    for i := 0 to |name|
      invariant |fallback| == i && forall j :: 0 <= j < i ==> fallback[j] == FallbackChar(name[j])
      invariant encoded + Encoded(name[i..]) == Encoded(name)
    {
      var chunk := PercentEncode(name[i]);
      EncodedNext(name, i, encoded);
      fallback := fallback + [FallbackChar(name[i])];
      encoded := encoded + chunk;
    }
    assert fallback == Fallback(name);
    assert name[|name|..] == "" && encoded + "" == encoded;
  }

  // ----- an independent reader -----

  datatype Param = Param(name: string, value: string)

  datatype Quoted = Quoted(value: string, next: nat)

  /** A quoted string from its first character on, backslash escaping the next; next is past the
      closing quote. */
  function ReadQuoted(s: string, i: nat): (r: Option<Quoted>)
    ensures r.Some? ==> i < r.value.next <= |s|
    decreases |s| - i
  {
    if i >= |s| then None
    else if s[i] == '"' then Some(Quoted("", i + 1))
    else if s[i] == '\\' then
      if i + 1 >= |s| then None
      else match ReadQuoted(s, i + 2)
        case Some(q) => Some(Quoted([s[i + 1]] + q.value, q.next))
        case None => None
    else match ReadQuoted(s, i + 1)
      case Some(q) => Some(Quoted([s[i]] + q.value, q.next))
      case None => None
  }

  /** The parameters after the disposition type: ";", blanks, name "=" quoted string or plain value. */
  function ReadParams(s: string): Option<seq<Param>>
    decreases |s|
  {
    if s == "" then Some([])
    else if s[0] != ';' then None
    else
      var i := SkipBlanks(s, 1);
      var eq := FindChar(s, '=', i);
      if eq == NPOS then None
      else if eq + 1 < |s| && s[eq + 1] == '"' then
        match ReadQuoted(s, eq + 2)
        case None => None
        case Some(q) =>
          (match ReadParams(s[q.next..])
           case None => None
           case Some(rest) => Some([Param(s[i..eq], q.value)] + rest))
      else
        var semi := FindChar(s, ';', eq + 1);
        var end := if semi == NPOS then |s| else semi;
        match ReadParams(s[end..])
        case None => None
        case Some(rest) => Some([Param(s[i..eq], s[eq + 1..end])] + rest)
  }

  function HexValue(c: char): Option<nat>
  {
    if '0' <= c <= '9' then Some(c as int - 48)
    else if 'A' <= c <= 'F' then Some(c as int - 65 + 10)
    else if 'a' <= c <= 'f' then Some(c as int - 97 + 10)
    else None
  }

  datatype Unit = Unit(c: char, length: nat)

  /** One value-char: an attr-char, or '%' and two hexadecimal digits. */
  function ReadUnit(s: string): (u: Option<Unit>)
    requires s != ""
    ensures u.Some? ==> 1 <= u.value.length <= |s|
  {
    if s[0] == '%' then
      if |s| < 3 || HexValue(s[1]).None? || HexValue(s[2]).None? then None
      else Some(Unit(((HexValue(s[1]).value * 16 + HexValue(s[2]).value) % 256) as char, 3))
    else if IsAttrChar(s[0]) then Some(Unit(s[0], 1))
    else None
  }

  /** value-chars of an ext-value. */
  function PercentDecode(s: string): Option<string>
    decreases |s|
  {
    if s == "" then Some("")
    else match ReadUnit(s)
      case None => None
      case Some(u) =>
        (match PercentDecode(s[u.length..])
         case None => None
         case Some(rest) => Some([u.c] + rest))
  }

  /** charset "'" language "'" value-chars, for the charset UTF-8. */
  function ReadExtValue(s: string): Option<string>
  {
    var q1 := FindChar(s, '\'', 0);
    if q1 == NPOS || s[..q1] != CHARSET then None
    else
      var q2 := FindChar(s, '\'', q1 + 1);
      if q2 == NPOS then None else PercentDecode(s[q2 + 1..])
  }

  /** The disposition type, and the parameters of a header. */
  function ReadKind(header: string): string
  {
    var semi := FindChar(header, ';', 0);
    if semi == NPOS then header else header[..semi]
  }

  function ReadHeader(header: string): Option<seq<Param>>
  {
    var semi := FindChar(header, ';', 0);
    if semi == NPOS then Some([]) else ReadParams(header[semi..])
  }

  // ----- what the header says -----

  predicate Printable(c: char) { ' ' <= c <= '~' }

  lemma {:induction false} EncodedChars(name: string)
    requires Base64.IsBytes(name)
    ensures forall i :: 0 <= i < |Encoded(name)| ==> IsAttrChar(Encoded(name)[i]) || Encoded(name)[i] == '%'
  {
    if name != "" { EncodedChars(name[1..]); }
  }

  lemma ReadEncodedChar(c: char, rest: string)
    requires c as int < 256
    ensures ReadUnit(EncodeChar(c) + rest) == Some(Unit(c, |EncodeChar(c)|))
  {
    if !IsAttrChar(c) {
      assert HexValue(HexDigit(c as int / 16)) == Some(c as int / 16);
      assert HexValue(HexDigit(c as int % 16)) == Some(c as int % 16);
    }
  }

  /** Percent-decoding gives back exactly the bytes of the name. */
  lemma {:induction false} DecodeEncoded(name: string)
    requires Base64.IsBytes(name)
    ensures PercentDecode(Encoded(name)) == Some(name)
  {
    if name != "" {
      var e, rest := EncodeChar(name[0]), Encoded(name[1..]);
      DecodeEncoded(name[1..]);
      ReadEncodedChar(name[0], rest);
      hide ReadUnit, EncodeChar;
      assert (e + rest)[|e|..] == rest;
      assert name == [name[0]] + name[1..];
    }
  }

  /** The fallback is as long as the name and holds no quote, backslash or unprintable character. */
  lemma {:induction false} FallbackSafe(name: string)
    ensures |Fallback(name)| == |name|
    ensures forall i :: 0 <= i < |name| ==>
        Printable(Fallback(name)[i]) && Fallback(name)[i] != '"' && Fallback(name)[i] != '\\'
  {
  }

  lemma {:induction false} QuotedPlain(s: string, i: nat, v: string)
    requires i + |v| < |s| && s[i..i + |v|] == v && s[i + |v|] == '"'
    requires forall k :: 0 <= k < |v| ==> v[k] != '"' && v[k] != '\\'
    ensures ReadQuoted(s, i) == Some(Quoted(v, i + |v| + 1))
    decreases |v|
  {
    if v != "" {
      assert s[i] == s[i..i + |v|][0] == v[0];
      assert s[i + 1..i + 1 + |v[1..]|] == v[1..];
      QuotedPlain(s, i + 1, v[1..]);
      assert v == [v[0]] + v[1..];
    }
  }

  lemma Pieces(a: string, b: string, c: string, d: string)
    ensures var s := a + b + c + d;
            s[..|a|] == a && s[|a|..|a| + |b|] == b && s[|a| + |b|..|a| + |b| + |c|] == c &&
            s[|a| + |b| + |c|..] == d
  {
  }

  /** A parameter with a plain value at the end of the header. */
  lemma {:induction false} LastParam(name: string, value: string)
    requires name != "" && (forall i :: 0 <= i < |name| ==> name[i] != '=') && name[0] != ' ' && name[0] != '\t'
    requires (forall i :: 0 <= i < |value| ==> value[i] != ';') && value != "" && value[0] != '"'
    ensures ReadParams("; " + name + "=" + value) == Some([Param(name, value)])
  {
    var s := "; " + name + "=" + value;
    var eq := 2 + |name|;
    Pieces("; ", name, "=", value);
    assert |s| == eq + 1 + |value| && s[eq + 1..|s|] == s[eq + 1..];
    assert s[0] == s[..2][0] && s[1] == s[..2][1] && s[2] == s[2..eq][0];
    assert s[eq] == s[eq..eq + 1][0] && s[eq + 1] == s[eq + 1..][0];
    assert SkipBlanks(s, 1) == SkipBlanks(s, 2) == 2;
    forall i | 2 <= i < eq ensures s[i] != '=' { assert s[i] == s[2..eq][i - 2]; }
    forall i | eq + 1 <= i < |s| ensures s[i] != ';' { assert s[i] == s[eq + 1..][i - eq - 1]; }
    FindCharIs(s, '=', 2, eq);
    FindCharNone(s, ';', eq + 1);
    hide SkipBlanks, FindChar, ReadQuoted;
    assert s[|s|..] == "" && ReadParams(s[|s|..]) == Some([]);
    assert [Param(name, value)] + [] == [Param(name, value)];
  }

  lemma {:induction false} QuotedParam(name: string, value: string, rest: string)
    requires name != "" && (forall i :: 0 <= i < |name| ==> name[i] != '=') && name[0] != ' ' && name[0] != '\t'
    requires forall i :: 0 <= i < |value| ==> value[i] != '"' && value[i] != '\\'
    requires ReadParams(rest).Some?
    ensures ReadParams("; " + name + "=" + "\"" + value + "\"" + rest) ==
        Some([Param(name, value)] + ReadParams(rest).value)
  {
    var s := "; " + name + "=" + "\"" + value + "\"" + rest;
    var eq := 2 + |name|;
    var next := eq + 2 + |value| + 1;
    var head := "; " + name + "=" + "\"";
    Pieces("; ", name, "=", "\"");
    Pieces(head, value, "\"", rest);
    assert s[..eq + 2] == head && |s| == next + |rest|;
    forall i | 0 <= i < eq + 2 ensures s[i] == head[i] { assert s[i] == s[..eq + 2][i]; }
    assert s[2..eq] == head[2..eq];
    assert s[next - 1..next][0] == s[next - 1];
    assert SkipBlanks(s, 1) == SkipBlanks(s, 2) == 2 by { assert head[2] == head[2..eq][0]; }
    forall i | 2 <= i < eq ensures s[i] != '=' { assert head[i] == head[2..eq][i - 2]; }
    assert head[eq] == head[eq..eq + 1][0] && head[eq + 1] == head[eq + 1..][0];
    FindCharIs(s, '=', 2, eq);
    QuotedPlain(s, eq + 2, value);
    hide SkipBlanks, FindChar, ReadQuoted;
  }

  /** Reading the header gives back the disposition, the fallback and, from the extended value, the
      exact bytes of the name. */
  lemma {:induction false} HeaderRoundTrip(name: string, inlined: bool)
    requires Base64.IsBytes(name)
    ensures var header := Header(name, inlined);
            ReadKind(header) == (if inlined then "inline" else "attachment") &&
            ReadHeader(header) ==
                Some([Param("filename", Fallback(name)), Param("filename*", "UTF-8" + "''" + Encoded(name))]) &&
            ReadExtValue("UTF-8" + "''" + Encoded(name)) == Some(name)
  {
    assert Kind(inlined) == (if inlined then "inline" else "attachment") && CHARSET == "UTF-8";
    assert PARAM == "filename" && PARAM_EXT == "filename*";
    FallbackSafe(name);
    ExtRoundTrip(name);
    PlainExt(name);
    KindIs(inlined);
    hide Fallback, Encoded, ReadParams, ReadKind, ReadHeader, ReadExtValue, Header, Kind, CHARSET, PARAM, PARAM_EXT;
    var ext := CHARSET + "''" + Encoded(name);
    TwoParams(Fallback(name), ext);
    Assembled(name, inlined, ext);
    KindEnds(Kind(inlined), Parameters(Fallback(name), ext));
  }

  function Parameters(f: string, ext: string): (s: string)
    ensures s != "" && s[0] == ';'
  {
    "; " + PARAM + "=" + "\"" + f + "\"" + ("; " + PARAM_EXT + "=" + ext)
  }

  lemma {:induction false} TwoParams(f: string, ext: string)
    requires forall i :: 0 <= i < |f| ==> f[i] != '"' && f[i] != '\\'
    requires (forall i :: 0 <= i < |ext| ==> ext[i] != ';') && ext != "" && ext[0] != '"'
    ensures ReadParams(Parameters(f, ext)) == Some([Param(PARAM, f), Param(PARAM_EXT, ext)])
  {
    ParamNames();
    hide ReadParams, PARAM, PARAM_EXT;
    LastParam(PARAM_EXT, ext);
    QuotedParam(PARAM, f, "; " + PARAM_EXT + "=" + ext);
    assert [Param(PARAM, f)] + [Param(PARAM_EXT, ext)] == [Param(PARAM, f), Param(PARAM_EXT, ext)];
  }

  lemma KindIs(inlined: bool)
    ensures Kind(inlined) in {"inline", "attachment"}
  {
  }

  lemma ParamNames()
    ensures PARAM != "" && (forall i :: 0 <= i < |PARAM| ==> PARAM[i] != '=') && PARAM[0] != ' ' && PARAM[0] != '\t'
    ensures PARAM_EXT != "" && (forall i :: 0 <= i < |PARAM_EXT| ==> PARAM_EXT[i] != '=') &&
        PARAM_EXT[0] != ' ' && PARAM_EXT[0] != '\t'
  {
  }

  lemma Assembled(name: string, inlined: bool, ext: string)
    requires Base64.IsBytes(name) && ext == CHARSET + "''" + Encoded(name)
    ensures Header(name, inlined) == Kind(inlined) + Parameters(Fallback(name), ext)
  {
    hide Fallback, Encoded, Kind, CHARSET, PARAM, PARAM_EXT;
    Regroup(Kind(inlined), FILENAME, Fallback(name), FILENAME_EXT, CHARSET, Encoded(name));
  }

  lemma Regroup(k: string, a: string, f: string, b: string, c: string, e: string)
    ensures k + a + "\"" + f + "\"" + b + c + "''" + e == k + (a + "\"" + f + "\"" + (b + (c + "''" + e)))
  {
  }

  lemma KindEnds(kind: string, params: string)
    requires params != "" && params[0] == ';' && kind in {"inline", "attachment"}
    ensures ReadKind(kind + params) == kind && ReadHeader(kind + params) == ReadParams(params)
  {
    var h := kind + params;
    forall i | 0 <= i < |kind| ensures h[i] != ';' { assert h[i] == kind[i]; }
    FindCharIs(h, ';', 0, |kind|);
    assert h[..|kind|] == kind && h[|kind|..] == params;
  }

  lemma PlainExt(name: string)
    requires Base64.IsBytes(name)
    ensures var ext := CHARSET + "''" + Encoded(name);
            ext != "" && ext[0] != '"' && forall i :: 0 <= i < |ext| ==> ext[i] != ';'
  {
    EncodedChars(name);
  }

  lemma {:induction false} ExtRoundTrip(name: string)
    requires Base64.IsBytes(name)
    ensures ReadExtValue(CHARSET + "''" + Encoded(name)) == Some(name)
  {
    var s := CHARSET + "''" + Encoded(name);
    assert |CHARSET| == 5 && forall i :: 0 <= i < 5 ==> s[i] == CHARSET[i] != '\'';
    FindCharIs(s, '\'', 0, 5);
    FindCharIs(s, '\'', 6, 6);
    assert s[..5] == CHARSET && s[7..] == Encoded(name);
    DecodeEncoded(name);
  }

  /** Every character of the header is printable ASCII. */
  lemma {:induction false} HeaderPrintable(name: string, inlined: bool)
    requires Base64.IsBytes(name)
    ensures forall i :: 0 <= i < |Header(name, inlined)| ==> Printable(Header(name, inlined)[i])
  {
    FallbackSafe(name);
    EncodedChars(name);
    PartsPrintable();
    hide Fallback, Encoded, Kind, FILENAME, FILENAME_EXT, CHARSET;
  }

  ghost predicate AllPrintable(s: string) { forall i :: 0 <= i < |s| ==> Printable(s[i]) }

  lemma PartsPrintable()
    ensures AllPrintable(Kind(true)) && AllPrintable(Kind(false)) && AllPrintable(FILENAME) &&
        AllPrintable(FILENAME_EXT) && AllPrintable(CHARSET)
  {
  }
}
