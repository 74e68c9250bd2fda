/** JwtUtil: HS256 tokens printed, split and read back by hand, and the calls on the shared
    revocation list. HMAC is any function to byte strings; the clock and the random bytes are inputs. */
module Jwt {
  import opened Wrappers
  import opened Text
  import Base64
  import Bits
  import opened Revocation

  type Hmac = (string, string) -> string

  ghost predicate IsHmac(hmac: Hmac) { forall k, d :: Base64.IsBytes(hmac(k, d)) }

  const HEADER := "{\"alg\":\"HS256\",\"typ\":\"JWT\"}"

  function HexDigit(v: nat): char
    requires v < 16
  {
    if v < 10 then (48 + v) as char else (97 + (v - 10)) as char
  }

  function Hex(bytes: string): string
    requires Base64.IsBytes(bytes)
  {
    if bytes == "" then ""
    else Hex(bytes[..|bytes| - 1]) +
         [HexDigit(bytes[|bytes| - 1] as int / 16), HexDigit(bytes[|bytes| - 1] as int % 16)]
  }

  const SUB_PART := "{\"sub\":\"admin\","
  const IAT_KEY := "\"iat\""
  const EXP_KEY := "\"exp\""
  const JTI_PART := ",\"jti\":\""

  function Payload(iat: int, exp: int, jti: string): string
  {
    SUB_PART + IAT_KEY + ":" + PrintInt(iat) + "," + EXP_KEY + ":" + PrintInt(exp) + JTI_PART + jti + "\"}"
  }

  function Join(h: string, p: string, s: string): string { h + "." + p + "." + s }

  /** The token issued at time now; the empty string when no random bytes could be drawn. */
  function SignedToken(hmac: Hmac, secret: string, now: int, expireSeconds: int, random: Option<string>): string
    requires random.Some? ==> Base64.IsBytes(random.value)
  {
    match random
    case None => ""
    case Some(bytes) => SignedPayload(hmac, secret, Payload(now, now + expireSeconds, Hex(bytes)))
  }

  function SignedPayload(hmac: Hmac, secret: string, payload: string): string
  {
    var h, p := Base64.UrlEncode(HEADER), Base64.UrlEncode(payload);
    Join(h, p, Base64.UrlEncode(hmac(secret, h + "." + p)))
  }

  /** The number after the first occurrence of the key and the next colon; 0 when there is none. */
  function FieldIn(payload: string, key: string): int
  {
    var pos := FindSub(payload, key, 0);
    if pos == NPOS then 0
    else
      var colon := FindChar(payload, ':', pos);
      if colon == NPOS then 0
      else
        var i := SkipBlanks(payload, colon + 1);
        match Stoll(payload[i..DigitsEnd(payload, i)])
        case Some(v) => v
        case None => 0
  }

  function FieldOf(token: string, key: string): int
  {
    var dot1 := FindChar(token, '.', 0);
    if dot1 == NPOS then 0
    else
      var dot2 := FindChar(token, '.', dot1 + 1);
      if dot2 == NPOS then 0 else FieldIn(Base64.UrlDecode(token[dot1 + 1..dot2]), key)
  }

  function ExpOf(token: string): int { FieldOf(token, EXP_KEY) }

  function IatOf(token: string): int { FieldOf(token, IAT_KEY) }

  /** Exactly two dots, and after the second the encoded HMAC of what stands before it. */
  predicate SignatureOk(hmac: Hmac, token: string, secret: string)
  {
    var dot1 := FindChar(token, '.', 0);
    dot1 != NPOS &&
    var dot2 := FindChar(token, '.', dot1 + 1);
    dot2 != NPOS && FindChar(token, '.', dot2 + 1) == NPOS &&
    token[dot2 + 1..] == Base64.UrlEncode(hmac(secret, token[..dot2]))
  }

  predicate Accepted(hmac: Hmac, token: string, secret: string, now: int, start: int, revoked: bool)
  {
    SignatureOk(hmac, token, secret) &&
    ExpOf(token) != 0 && now < ExpOf(token) &&
    !(start > 0 && 0 < IatOf(token) < start) &&
    !revoked
  }

  /** The static state of JwtUtil; persisted is what the persistence callback has received. */
  class JwtUtil {
    var blacklist: Blacklist
    var maxEntries: int
    var startTimeSeconds: int
    var persisted: seq<Entry>

    constructor ()
      ensures blacklist == [] && maxEntries == 1000 && startTimeSeconds == 0 && persisted == []
    {
      blacklist, maxEntries, startTimeSeconds, persisted := [], 1000, 0, [];
    }

    method Sign(hmac: Hmac, secret: string, now: int, expireSeconds: int, random: Option<string>)
        returns (token: string)
      requires IsHmac(hmac)
      requires random.Some? ==> |random.value| == 16 && Base64.IsBytes(random.value)
      ensures token == SignedToken(hmac, secret, now, expireSeconds, random)
    {
      if random.None? { return ""; }
      var jti := RandomHex(random.value);
      HeaderIsBytes();
      PayloadIsBytes(now, now + expireSeconds, random.value);
      token := SignPayload(hmac, secret, Payload(now, now + expireSeconds, jti));
    }

    method SignPayload(hmac: Hmac, secret: string, payload: string) returns (token: string)
      requires IsHmac(hmac) && Base64.IsBytes(payload) && Base64.IsBytes(HEADER)
      ensures token == SignedPayload(hmac, secret, payload)
    {
      hide Base64.UrlEncode;
      var headerEnc := Base64.Base64UrlEncode(HEADER);
      var payloadEnc := Base64.Base64UrlEncode(payload);
      var sigInput := headerEnc + "." + payloadEnc;
      var sig := Base64.Base64UrlEncode(hmac(secret, sigInput));
      token := sigInput + "." + sig;
    }

    method RandomHex(bytes: string) returns (jti: string)
      requires Base64.IsBytes(bytes)
      ensures jti == Hex(bytes)
    {
      jti := "";
      for k := 0 to |bytes|
        invariant jti == Hex(bytes[..k])
      {
        var byte := bytes[k] as int;
        Bits.Nibbles(byte);
        hide Bits.Shr, Bits.And, HexDigit;
        jti := jti + [HexDigit(Bits.Shr(byte, 4))] + [HexDigit(Bits.And(byte, 0x0f))];
        assert bytes[..k + 1][..k] == bytes[..k];
      }
      assert bytes[..|bytes|] == bytes;
    }

    method GetField(token: string, key: string) returns (v: int)
      ensures v == FieldOf(token, key)
    {
      hide FieldIn, Base64.UrlDecode, FindChar;
      var dot1 := FindChar(token, '.', 0);
      if dot1 == NPOS { return 0; }
      var dot2 := FindChar(token, '.', dot1 + 1);
      if dot2 == NPOS { return 0; }
      var payload := Base64.Base64UrlDecode(token[dot1 + 1..dot2]);
      v := FindField(payload, key);
    }

    method FindField(payload: string, key: string) returns (v: int)
      ensures v == FieldIn(payload, key)
    {
      hide Stoll, FindSub, FindChar;
      var pos := FindSub(payload, key, 0);
      if pos == NPOS { return 0; }
      pos := FindChar(payload, ':', pos);
      if pos == NPOS { return 0; }
      pos := pos + 1;
      ghost var first := pos;
      while pos < |payload| && (payload[pos] == ' ' || payload[pos] == '\t')
        invariant first <= pos <= |payload|
        invariant SkipBlanks(payload, pos) == SkipBlanks(payload, first)
      {
        pos := pos + 1;
      }
      match Stoll(payload[pos..DigitsEnd(payload, pos)]) {
        case Some(n) => v := n;
        case None => v := 0;
      }
    }

    method GetExp(token: string) returns (exp: int)
      ensures exp == ExpOf(token)
    {
      exp := GetField(token, EXP_KEY);
    }

    method GetIat(token: string) returns (iat: int)
      ensures iat == IatOf(token)
    {
      iat := GetField(token, IAT_KEY);
    }

    method Verify(hmac: Hmac, token: string, secret: string, now: int) returns (ok: bool)
      requires IsHmac(hmac)
      ensures ok == Accepted(hmac, token, secret, now, startTimeSeconds, Listed(blacklist, token))
    {
      hide FindChar, Base64.UrlEncode, ExpOf, IatOf;
      var dot1 := FindChar(token, '.', 0);
      if dot1 == NPOS { return false; }
      var dot2 := FindChar(token, '.', dot1 + 1);
      if dot2 == NPOS { return false; }
      if FindChar(token, '.', dot2 + 1) != NPOS { return false; }
      var sigEncoded := token[dot2 + 1..];
      var expectedSig := Base64.Base64UrlEncode(hmac(secret, token[..dot2]));
      if |expectedSig| != |sigEncoded| || expectedSig != sigEncoded { return false; }
      var exp := GetExp(token);
      if exp == 0 || now >= exp { return false; }
      if startTimeSeconds > 0 {
        var iat := GetIat(token);
        if iat > 0 && iat < startTimeSeconds { return false; }
      }
      if Listed(blacklist, token) { return false; }
      return true;
    }

    method EraseExpired(now: int)
      modifies `blacklist
      ensures blacklist == Purge(old(blacklist), now)
    {
      var i := 0;
      while i < |blacklist|
        invariant 0 <= i <= |blacklist|
        invariant blacklist[..i] + Purge(blacklist[i..], now) == Purge(old(blacklist), now)
        decreases |blacklist| - i
      {
        ghost var before := blacklist;
        if blacklist[i].expireAt <= now {
          blacklist := Erase(blacklist, i);
          assert blacklist[..i] == before[..i] && blacklist[i..] == before[i..][1..];
        } else {
          i := i + 1;
          assert before[i - 1..][1..] == before[i..];
          assert before[..i] + Purge(before[i..], now) ==
              before[..i - 1] + ([before[i - 1]] + Purge(before[i..], now));
        }
      }
      assert blacklist[..i] + Purge(blacklist[i..], now) == blacklist;
    }

    method EvictOldest()
      modifies `blacklist
      ensures blacklist == Evict(old(blacklist), maxEntries)
    {
      while maxEntries > 0 && |blacklist| >= maxEntries
        invariant Evict(blacklist, maxEntries) == Evict(old(blacklist), maxEntries)
        decreases |blacklist|
      {
        var oldest := 0;
        for it := 1 to |blacklist|
          invariant oldest == Oldest(blacklist, it)
        {
          if blacklist[it].expireAt < blacklist[oldest].expireAt { oldest := it; }
        }
        blacklist := Erase(blacklist, oldest);
      }
    }

    method Revoke(token: string, now: int)
      modifies `blacklist, `persisted
      ensures blacklist == Revocation.Revoke(old(blacklist), maxEntries, token, ExpOf(token), now)
      ensures ExpOf(token) == 0 ==> blacklist == old(blacklist)
      ensures persisted == if ExpOf(token) == 0 then old(persisted)
          else old(persisted) + [Entry(token, ExpOf(token))]
    {
      var exp := GetExp(token);
      if exp == 0 { return; }
      EraseExpired(now);
      EvictOldest();
      blacklist := Insert(blacklist, Entry(token, exp));
      persisted := persisted + [Entry(token, exp)];
    }

    method Cleanup(now: int)
      modifies `blacklist
      ensures blacklist == Purge(old(blacklist), now)
    {
      EraseExpired(now);
    }

    method LoadEntries(entries: seq<Entry>)
      modifies `blacklist
      ensures blacklist == Load(old(blacklist), entries)
    {
      for i := 0 to |entries|
        invariant Load(blacklist, entries[i..]) == Load(old(blacklist), entries)
      {
        assert entries[i..][1..] == entries[i + 1..];
        blacklist := Insert(blacklist, entries[i]);
      }
      assert entries[|entries|..] == [];
    }

    method SetMaxEntries(n: int)
      modifies `maxEntries
      ensures maxEntries == n
    {
      maxEntries := n;
    }

    method SetStartTimeSeconds(seconds: int)
      modifies `startTimeSeconds
      ensures startTimeSeconds == seconds
    {
      startTimeSeconds := seconds;
    }
  }

  lemma {:induction false} HexIsBytes(bytes: string)
    requires Base64.IsBytes(bytes)
    ensures Base64.IsBytes(Hex(bytes))
  {
    if bytes != "" { HexIsBytes(bytes[..|bytes| - 1]); }
  }

  lemma HeaderIsBytes()
    ensures Base64.IsBytes(HEADER)
  {
  }

  lemma PayloadIsBytes(iat: int, exp: int, random: string)
    requires Base64.IsBytes(random)
    ensures Base64.IsBytes(Payload(iat, exp, Hex(random)))
  {
    HexIsBytes(random);
    PrintIntIsBytes(iat);
    PrintIntIsBytes(exp);
    PartsAreBytes();
    hide PrintInt, Hex, SUB_PART, IAT_KEY, EXP_KEY, JTI_PART;
    var s1 := SUB_PART + IAT_KEY + ":" + PrintInt(iat);
    BytesJoin(SUB_PART, IAT_KEY);
    BytesJoin(SUB_PART + IAT_KEY, ":");
    BytesJoin(SUB_PART + IAT_KEY + ":", PrintInt(iat));
    var s2 := s1 + "," + EXP_KEY + ":" + PrintInt(exp);
    BytesJoin(s1, ",");
    BytesJoin(s1 + ",", EXP_KEY);
    BytesJoin(s1 + "," + EXP_KEY, ":");
    BytesJoin(s1 + "," + EXP_KEY + ":", PrintInt(exp));
    BytesJoin(s2, JTI_PART);
    BytesJoin(s2 + JTI_PART, Hex(random));
    hide Base64.IsBytes;
    BytesJoin(s2 + JTI_PART + Hex(random), "\"}");
  }

  lemma BytesJoin(a: string, b: string)
    requires Base64.IsBytes(a) && Base64.IsBytes(b)
    ensures Base64.IsBytes(a + b)
  {
  }

  lemma PartsAreBytes()
    ensures Base64.IsBytes(SUB_PART) && Base64.IsBytes(IAT_KEY) && Base64.IsBytes(EXP_KEY) &&
        Base64.IsBytes(JTI_PART)
  {
  }

  lemma PrintIntIsBytes(n: int)
    ensures Base64.IsBytes(PrintInt(n))
  {
  }

  // ----- splitting a token -----

  ghost predicate NoDot(s: string) { forall i :: 0 <= i < |s| ==> s[i] != '.' }

  lemma {:induction false} SplitJoin(h: string, p: string, s: string)
    requires NoDot(h) && NoDot(p) && NoDot(s)
    ensures var token, d2 := Join(h, p, s), |h| + 1 + |p|;
            FindChar(token, '.', 0) == |h| &&
            FindChar(token, '.', |h| + 1) == d2 &&
            FindChar(token, '.', d2 + 1) == NPOS &&
            token[|h| + 1..d2] == p && token[..d2] == h + "." + p && token[d2 + 1..] == s
  {
    var token, d2 := Join(h, p, s), |h| + 1 + |p|;
    FindCharIs(token, '.', 0, |h|);
    FindCharIs(token, '.', |h| + 1, d2);
    FindCharNone(token, '.', d2 + 1);
  }

  /** A token of three parts carries a good signature exactly when its last part is the encoded HMAC of
      its own first two, whatever they hold. */
  lemma {:induction false} SignatureExactly(hmac: Hmac, secret: string, h: string, p: string, s: string)
    requires NoDot(h) && NoDot(p) && NoDot(s)
    ensures SignatureOk(hmac, Join(h, p, s), secret) <==> s == Base64.UrlEncode(hmac(secret, h + "." + p))
  {
    SplitJoin(h, p, s);
    hide FindChar, Base64.UrlEncode;
  }

  /** A text without exactly two dots is refused. */
  lemma {:induction false} ThreeParts(hmac: Hmac, secret: string, token: string)
    requires SignatureOk(hmac, token, secret)
    ensures exists h, p, s :: NoDot(h) && NoDot(p) && NoDot(s) && token == Join(h, p, s)
  {
    hide Base64.UrlEncode;
    var d1 := FindChar(token, '.', 0);
    var d2 := FindChar(token, '.', d1 + 1);
    FindCharSound(token, '.', 0);
    FindCharSound(token, '.', d1 + 1);
    FindCharSound(token, '.', d2 + 1);
    CutIsJoin(token, d1, d2);
    CutNoDot(token, d1, d2);
    hide FindChar, Join, NoDot;
  }

  lemma CutNoDot(token: string, d1: nat, d2: nat)
    requires d1 < d2 < |token| && (forall i :: 0 <= i < d1 ==> token[i] != '.')
    requires (forall i :: d1 < i < d2 ==> token[i] != '.') && forall i :: d2 < i < |token| ==> token[i] != '.'
    ensures NoDot(token[..d1]) && NoDot(token[d1 + 1..d2]) && NoDot(token[d2 + 1..])
  {
  }

  /** Verification of any text: three parts, the last the encoded HMAC of the first two, and the times
      that the second part decodes to. */
  lemma {:induction false} AcceptedExactly(hmac: Hmac, secret: string, h: string, p: string, s: string,
                                           now: int, start: int, revoked: bool)
    requires NoDot(h) && NoDot(p) && NoDot(s)
    ensures var payload := Base64.UrlDecode(p);
            var exp, iat := FieldIn(payload, EXP_KEY), FieldIn(payload, IAT_KEY);
            Accepted(hmac, Join(h, p, s), secret, now, start, revoked) <==>
              s == Base64.UrlEncode(hmac(secret, h + "." + p)) && exp != 0 && now < exp &&
              (start <= 0 || iat <= 0 || start <= iat) && !revoked
  {
    SignatureExactly(hmac, secret, h, p, s);
    FieldOfExactly(h, p, s, EXP_KEY);
    FieldOfExactly(h, p, s, IAT_KEY);
    hide FieldOf, FieldIn, Base64.UrlEncode, Base64.UrlDecode, SignatureOk, Join, NoDot, EXP_KEY, IAT_KEY;
  }

  /** The times are read from what stands between the first two dots; without two dots they are 0. */
  lemma {:induction false} FieldOfExactly(h: string, p: string, rest: string, key: string)
    requires NoDot(h) && NoDot(p)
    ensures FieldOf(Join(h, p, rest), key) == FieldIn(Base64.UrlDecode(p), key)
  {
    var token, d2 := Join(h, p, rest), |h| + 1 + |p|;
    FindCharIs(token, '.', 0, |h|);
    FindCharIs(token, '.', |h| + 1, d2);
    assert token[|h| + 1..d2] == p;
    hide FindChar, FieldIn, Base64.UrlDecode;
  }

  lemma CutIsJoin(token: string, d1: nat, d2: nat)
    requires d1 < d2 < |token| && token[d1] == token[d2] == '.'
    ensures token == Join(token[..d1], token[d1 + 1..d2], token[d2 + 1..])
  {
    assert token == token[..d1] + [token[d1]] + token[d1 + 1..d2] + [token[d2]] + token[d2 + 1..];
  }

  lemma {:induction false} FieldOfMalformed(token: string, key: string)
    requires forall h, p, rest :: NoDot(h) && NoDot(p) ==> token != Join(h, p, rest)
    ensures FieldOf(token, key) == 0
  {
    var d1 := FindChar(token, '.', 0);
    FindCharSound(token, '.', 0);
    if d1 != NPOS {
      var d2 := FindChar(token, '.', d1 + 1);
      FindCharSound(token, '.', d1 + 1);
      hide FindChar, FieldIn, Base64.UrlDecode;
      if d2 != NPOS {
        CutIsJoin(token, d1, d2);
        assert false;
      }
    }
  }

  lemma EncodedNoDot(x: string)
    ensures NoDot(Base64.UrlEncode(x))
  {
    Base64.UrlAlphabet(x);
    forall i | 0 <= i < |Base64.UrlEncode(x)| ensures Base64.UrlEncode(x)[i] != '.' {
      assert Base64.IsUrlChar(Base64.UrlEncode(x)[i]);
    }
  }

  function SigningInput(payload: string): string { Base64.UrlEncode(HEADER) + "." + Base64.UrlEncode(payload) }

  /** A signed payload splits into what was signed, the encoded payload and the encoded HMAC. */
  lemma {:induction false} SplitSigned(hmac: Hmac, secret: string, payload: string)
    ensures var token := SignedPayload(hmac, secret, payload);
            var dot1 := FindChar(token, '.', 0);
            dot1 != NPOS &&
            var dot2 := FindChar(token, '.', dot1 + 1);
            dot2 != NPOS && FindChar(token, '.', dot2 + 1) == NPOS &&
            token[dot1 + 1..dot2] == Base64.UrlEncode(payload) && token[..dot2] == SigningInput(payload) &&
            token[dot2 + 1..] == Base64.UrlEncode(hmac(secret, SigningInput(payload)))
  {
    EncodedNoDot(HEADER);
    EncodedNoDot(payload);
    EncodedNoDot(hmac(secret, SigningInput(payload)));
    hide Base64.UrlEncode, FindChar, HEADER;
    SplitJoin(Base64.UrlEncode(HEADER), Base64.UrlEncode(payload),
        Base64.UrlEncode(hmac(secret, SigningInput(payload))));
  }

  // ----- reading the payload -----

  /** The number printed after the first occurrence of a key is read back; a printed negative
      number reads as 0. */
  lemma {:induction false} NumberField(pre: string, key: string, v: int, post: string)
    requires |key| >= 2 && ':' !in key
    requires forall i :: 0 <= i < |pre| ==> !((pre + key)[i] == key[0] && (pre + key)[i + 1] == key[1])
    requires post != "" && !IsDigit(post[0]) && v <= INT64_MAX
    ensures FieldIn(pre + key + ":" + PrintInt(v) + post, key) == if v > 0 then v else 0
  {
    var payload := pre + key + ":" + PrintInt(v) + post;
    var first := |pre| + |key| + 1;
    KeyFound(pre, key, PrintInt(v) + post);
    assert payload == pre + key + ":" + (PrintInt(v) + post);
    assert payload[first..first + |PrintInt(v)|] == PrintInt(v);
    assert payload[first + |PrintInt(v)|] == post[0];
    NumberAt(payload, first, v);
    FieldAt(payload, key, |pre|, |pre| + |key|, first, DigitsEnd(payload, first));
    hide PrintInt, SkipBlanks, Stoll, DigitsEnd, FindSub, FindChar, FieldIn, IsDigit;
  }

  /** Reading a field of any payload: the digits from first to end, behind the first occurrence of the
      key, the first colon after that and the blanks after the colon, if their value fits 64 bits. */
  lemma {:induction false} FieldExactly(payload: string, key: string, at: nat, colon: nat, first: nat, end: nat)
    requires MatchesAt(payload, key, at) && forall i :: 0 <= i < at ==> !MatchesAt(payload, key, i)
    requires at <= colon < first <= end <= |payload|
    requires payload[colon] == ':' && forall i :: at <= i < colon ==> payload[i] != ':'
    requires forall i :: colon < i < first ==> payload[i] == ' ' || payload[i] == '\t'
    requires forall i :: first <= i < end ==> IsDigit(payload[i])
    requires end < |payload| ==> !IsDigit(payload[end])
    requires first == end < |payload| ==> payload[first] != ' ' && payload[first] != '\t'
    ensures var v := DigitsValue(payload[first..end]);
            FieldIn(payload, key) == if first < end && v <= INT64_MAX then v else 0
  {
    FindSubIs(payload, key, 0, at);
    FindCharIs(payload, ':', at, colon);
    SkipBlanksIs(payload, colon + 1, first);
    DigitsEndIs(payload, first, end);
    DigitsOf(payload, first, end);
    StollDigits(payload[first..end]);
    hide FindSub, FindChar, SkipBlanks, DigitsEnd, Stoll, DigitsValue, MatchesAt, IsDigit;
    FieldAt(payload, key, at, colon, first, end);
  }

  lemma DigitsOf(payload: string, first: nat, end: nat)
    requires first <= end <= |payload| && forall i :: first <= i < end ==> IsDigit(payload[i])
    ensures forall i :: 0 <= i < end - first ==> IsDigit(payload[first..end][i])
  {
    hide IsDigit;
  }

  lemma FieldAt(payload: string, key: string, at: nat, colon: nat, first: nat, end: nat)
    requires FindSub(payload, key, 0) == at && FindChar(payload, ':', at) == colon < |payload|
    requires SkipBlanks(payload, colon + 1) == first <= end <= |payload| && DigitsEnd(payload, first) == end
    ensures FieldIn(payload, key) == match Stoll(payload[first..end]) case Some(v) => v case None => 0
  {
    hide FindSub, FindChar, SkipBlanks, DigitsEnd, Stoll;
  }

  /** Without the key, or without a colon behind its first occurrence, the field reads as 0. */
  lemma {:induction false} FieldMissing(payload: string, key: string, at: nat)
    requires forall i :: 0 <= i < at ==> !MatchesAt(payload, key, i)
    requires at >= |payload| || (MatchesAt(payload, key, at) && ':' !in payload[at..])
    requires key != ""
    ensures FieldIn(payload, key) == 0
  {
    if at >= |payload| {
      FindSubNone(payload, key, 0);
    } else {
      FindSubIs(payload, key, 0, at);
      forall i | at <= i < |payload| ensures payload[i] != ':' { assert payload[at..][i - at] == payload[i]; }
      FindCharNone(payload, ':', at);
    }
    hide FindSub, FindChar;
  }

  lemma {:induction false} KeyFound(pre: string, key: string, rest: string)
    requires |key| >= 2 && ':' !in key
    requires forall i :: 0 <= i < |pre| ==> !((pre + key)[i] == key[0] && (pre + key)[i + 1] == key[1])
    ensures var payload := pre + key + ":" + rest;
            FindSub(payload, key, 0) == |pre| && FindChar(payload, ':', |pre|) == |pre| + |key|
  {
    var payload, at := pre + key + ":" + rest, |pre|;
    forall i | 0 <= i < at ensures !MatchesAt(payload, key, i) {
      assert payload[i] == (pre + key)[i] && payload[i + 1] == (pre + key)[i + 1];
      assert i + |key| <= |payload| ==>
          payload[i..i + |key|][0] == payload[i] &&
          payload[i..i + |key|][1] == payload[i + 1];
    }
    assert payload[at..at + |key|] == key;
    FindSubIs(payload, key, 0, at);
    FindCharIs(payload, ':', at, at + |key|);
  }

  lemma {:induction false} NumberAt(payload: string, first: nat, v: int)
    requires first + |PrintInt(v)| < |payload| && !IsDigit(payload[first + |PrintInt(v)|])
    requires payload[first..first + |PrintInt(v)|] == PrintInt(v) && v <= INT64_MAX
    ensures SkipBlanks(payload, first) == first
    ensures match Stoll(payload[first..DigitsEnd(payload, first)])
            case Some(w) => w == (if v > 0 then v else 0)
            case None => v < 0
  {
    var n := |PrintInt(v)|;
    forall j | first <= j < first + n ensures payload[j] == PrintInt(v)[j - first] {
      assert payload[j] == payload[first..first + n][j - first];
    }
    if v < 0 {
      assert payload[first] == '-';
      DigitsEndIs(payload, first, first);
    } else {
      assert IsDigit(payload[first]);
      DigitsEndIs(payload, first, first + n);
      StrtollPrintInt(v);
    }
  }

  lemma PayloadHead(i: nat)
    requires i < 15
    ensures |SUB_PART| == 15 && |IAT_KEY| == 5 && |EXP_KEY| == 5
    ensures !((SUB_PART + IAT_KEY)[i] == IAT_KEY[0] && (SUB_PART + IAT_KEY)[i + 1] == IAT_KEY[1])
    ensures !((SUB_PART + IAT_KEY)[i] == EXP_KEY[0] && (SUB_PART + IAT_KEY)[i + 1] == EXP_KEY[1])
  {
  }

  lemma {:induction false} ReadIat(iat: int, exp: int, jti: string)
    requires iat <= INT64_MAX
    ensures FieldIn(Payload(iat, exp, jti), IAT_KEY) == if iat > 0 then iat else 0
  {
    IatIsFirst();
    hide FieldIn, PrintInt, SUB_PART, IAT_KEY, EXP_KEY, JTI_PART;
    var post := "," + EXP_KEY + ":" + PrintInt(exp) + JTI_PART + jti + "\"}";
    NumberField(SUB_PART, IAT_KEY, iat, post);
    assert Payload(iat, exp, jti) == SUB_PART + IAT_KEY + ":" + PrintInt(iat) + post;
  }

  lemma IatIsFirst()
    ensures |IAT_KEY| == 5 && ':' !in IAT_KEY
    ensures forall i :: 0 <= i < |SUB_PART| ==>
              !((SUB_PART + IAT_KEY)[i] == IAT_KEY[0] && (SUB_PART + IAT_KEY)[i + 1] == IAT_KEY[1])
  {
    PayloadHead(0);
    forall i | 0 <= i < |SUB_PART|
      ensures !((SUB_PART + IAT_KEY)[i] == IAT_KEY[0] && (SUB_PART + IAT_KEY)[i + 1] == IAT_KEY[1])
    {
      PayloadHead(i);
    }
  }

  lemma {:induction false} ReadExp(iat: int, exp: int, jti: string)
    requires exp <= INT64_MAX
    ensures FieldIn(Payload(iat, exp, jti), EXP_KEY) == if exp > 0 then exp else 0
  {
    var pre := SUB_PART + IAT_KEY + ":" + PrintInt(iat) + ",";
    ExpIsFirst(iat);
    var post := JTI_PART + jti + "\"}";
    assert post[0] == ',';
    hide FieldIn, PrintInt, SUB_PART, IAT_KEY, EXP_KEY, JTI_PART;
    NumberField(pre, EXP_KEY, exp, post);
    Regroup(pre + EXP_KEY + ":" + PrintInt(exp), JTI_PART, jti, "\"}");
  }

  lemma Regroup(x: string, a: string, b: string, c: string)
    ensures x + a + b + c == x + (a + b + c)
  {
  }

  /** Neither the fixed head of the payload nor a printed number holds the start of the key. */
  lemma {:induction false} ExpIsFirst(iat: int)
    ensures var pre := SUB_PART + IAT_KEY + ":" + PrintInt(iat) + ",";
            forall i :: 0 <= i < |pre| ==>
                !((pre + EXP_KEY)[i] == EXP_KEY[0] && (pre + EXP_KEY)[i + 1] == EXP_KEY[1])
  {
    var num := PrintInt(iat);
    var pre := SUB_PART + IAT_KEY + ":" + num + ",";
    forall k | 0 <= k < |num| ensures num[k] != '"' {}
    hide PrintInt;
    PayloadHead(0);
    forall i | 0 <= i < |pre| ensures !((pre + EXP_KEY)[i] == EXP_KEY[0] && (pre + EXP_KEY)[i + 1] == EXP_KEY[1]) {
      if i < 15 {
        PayloadHead(i);
      } else if i < 21 {
        KeyChars(i - 15);
      } else if i < 21 + |num| {
        assert pre[i] == num[i - 21];
      }
    }
  }

  lemma KeyChars(k: nat)
    requires k < 6
    ensures |IAT_KEY| == 5 && EXP_KEY[0] == '"' && EXP_KEY[1] == 'e'
    ensures k < 5 && IAT_KEY[k] == '"' ==> (IAT_KEY + ":")[k + 1] != 'e'
  {
  }

  // ----- issued tokens -----

  /** Every issued token splits at its two dots and yields its expiry and issue time again. */
  lemma {:induction false} IssuedToken(hmac: Hmac, secret: string, now: int, expireSeconds: int, random: string)
    requires IsHmac(hmac) && Base64.IsBytes(random)
    requires now <= INT64_MAX && now + expireSeconds <= INT64_MAX
    ensures var token := SignedToken(hmac, secret, now, expireSeconds, Some(random));
            SignatureOk(hmac, token, secret) &&
            ExpOf(token) == (if now + expireSeconds > 0 then now + expireSeconds else 0) &&
            IatOf(token) == if now > 0 then now else 0
  {
    hide SignedPayload, FindChar, FieldIn, Payload, SigningInput, Hex, Base64.UrlEncode, Base64.UrlDecode;
    var payload := Payload(now, now + expireSeconds, Hex(random));
    SplitSigned(hmac, secret, payload);
    PayloadIsBytes(now, now + expireSeconds, random);
    Base64.UrlRoundTrip(payload);
    ReadExp(now, now + expireSeconds, Hex(random));
    ReadIat(now, now + expireSeconds, Hex(random));
  }

  lemma PayloadWritten(iat: int, exp: int, jti: string)
    ensures Payload(iat, exp, jti) ==
            "{\"sub\":\"admin\"," + "\"iat\"" + ":" + PrintInt(iat) + "," + "\"exp\"" + ":" +
            PrintInt(exp) + ",\"jti\":\"" + jti + "\"}"
  {
    hide PrintInt;
  }

  /** The two parts that are signed decode to the header and the payload, written out. */
  lemma {:induction false} IssuedDecodes(hmac: Hmac, secret: string, now: int, expireSeconds: int, random: string)
      returns (h: string, p: string, s: string)
    requires Base64.IsBytes(random)
    ensures NoDot(h) && NoDot(p) && NoDot(s)
    ensures SignedToken(hmac, secret, now, expireSeconds, Some(random)) == Join(h, p, s)
    ensures Base64.UrlDecode(h) == "{\"alg\":\"HS256\",\"typ\":\"JWT\"}"
    ensures Base64.UrlDecode(p) == "{\"sub\":\"admin\"," + "\"iat\"" + ":" + PrintInt(now) + "," + "\"exp\"" + ":" +
                                   PrintInt(now + expireSeconds) + ",\"jti\":\"" + Hex(random) + "\"}"
  {
    var payload := Payload(now, now + expireSeconds, Hex(random));
    h, p, s := PartsOf(hmac, secret, payload);
    PayloadIsBytes(now, now + expireSeconds, random);
    Base64.UrlRoundTrip(payload);
    PayloadWritten(now, now + expireSeconds, Hex(random));
    hide Base64.UrlEncode, Base64.UrlDecode, PrintInt, Hex, Payload, SignedPayload, Join, NoDot, Base64.IsBytes;
  }

  lemma PartsOf(hmac: Hmac, secret: string, payload: string) returns (h: string, p: string, s: string)
    ensures NoDot(h) && NoDot(p) && NoDot(s) && SignedPayload(hmac, secret, payload) == Join(h, p, s)
    ensures Base64.UrlDecode(h) == "{\"alg\":\"HS256\",\"typ\":\"JWT\"}" && p == Base64.UrlEncode(payload)
  {
    h, p := Base64.UrlEncode(HEADER), Base64.UrlEncode(payload);
    s := Base64.UrlEncode(hmac(secret, h + "." + p));
    EncodedNoDot(HEADER);
    EncodedNoDot(payload);
    EncodedNoDot(hmac(secret, h + "." + p));
    HeaderIsBytes();
    Base64.UrlRoundTrip(HEADER);
    assert HEADER == "{\"alg\":\"HS256\",\"typ\":\"JWT\"}";
    hide Base64.UrlEncode, Base64.UrlDecode, HEADER, NoDot, Base64.IsBytes;
  }

  /** Section 4.1.4 of RFC 7519 and the restart rule: what a verification of an issued token
      answers, for every issue time, lifetime, clock, start time and list. */
  lemma {:induction false} VerifyIssued(hmac: Hmac, secret: string, issued: int, expireSeconds: int, random: string,
                                        now: int, start: int, revoked: bool)
    requires IsHmac(hmac) && Base64.IsBytes(random)
    requires issued <= INT64_MAX && issued + expireSeconds <= INT64_MAX
    ensures var token := SignedToken(hmac, secret, issued, expireSeconds, Some(random));
            Accepted(hmac, token, secret, now, start, revoked) <==>
              issued + expireSeconds > 0 && now < issued + expireSeconds &&
              !(start > 0 && 0 < issued < start) && !revoked
  {
    IssuedToken(hmac, secret, issued, expireSeconds, random);
  }

  /** Under another secret an issued token carries a good signature only if the two HMACs collide. */
  lemma {:induction false} OtherSecret(hmac: Hmac, secret: string, other: string, now: int, expireSeconds: int,
      random: string)
    requires IsHmac(hmac) && Base64.IsBytes(random)
    ensures var input := SigningInput(Payload(now, now + expireSeconds, Hex(random)));
            SignatureOk(hmac, SignedToken(hmac, secret, now, expireSeconds, Some(random)), other) <==>
              hmac(secret, input) == hmac(other, input)
  {
    hide SignedPayload, FindChar, Payload, Hex, HEADER, Base64.UrlEncode, SigningInput;
    var payload := Payload(now, now + expireSeconds, Hex(random));
    SplitSigned(hmac, secret, payload);
    Base64.UrlInjective(hmac(secret, SigningInput(payload)), hmac(other, SigningInput(payload)));
  }

  /** Issued tokens with different random bytes differ. */
  lemma {:induction false} IssuedDistinct(hmac: Hmac, secret: string, now: int, expireSeconds: int, r1: string,
      r2: string)
    requires IsHmac(hmac) && Base64.IsBytes(r1) && Base64.IsBytes(r2) && |r1| == |r2| && r1 != r2
    ensures SignedToken(hmac, secret, now, expireSeconds, Some(r1)) !=
        SignedToken(hmac, secret, now, expireSeconds, Some(r2))
  {
    hide SignedPayload, FindChar, Payload, Base64.UrlEncode, SigningInput, Hex;
    var p1, p2 := Payload(now, now + expireSeconds, Hex(r1)), Payload(now, now + expireSeconds, Hex(r2));
    SplitSigned(hmac, secret, p1);
    SplitSigned(hmac, secret, p2);
    PayloadIsBytes(now, now + expireSeconds, r1);
    PayloadIsBytes(now, now + expireSeconds, r2);
    Base64.UrlInjective(p1, p2);
    DistinctPayloads(now, now + expireSeconds, r1, r2);
  }

  lemma DistinctPayloads(iat: int, exp: int, r1: string, r2: string)
    requires Base64.IsBytes(r1) && Base64.IsBytes(r2) && |r1| == |r2| && r1 != r2
    ensures Payload(iat, exp, Hex(r1)) != Payload(iat, exp, Hex(r2))
  {
    HexInjective(r1, r2);
    HexLength(r1);
    HexLength(r2);
    hide PrintInt, Hex, SUB_PART, IAT_KEY, EXP_KEY, JTI_PART;
    var pre := SUB_PART + IAT_KEY + ":" + PrintInt(iat) + "," + EXP_KEY + ":" + PrintInt(exp) + JTI_PART;
    var p1, p2 := Payload(iat, exp, Hex(r1)), Payload(iat, exp, Hex(r2));
    assert p1[|pre|..|pre| + |Hex(r1)|] == Hex(r1) && p2[|pre|..|pre| + |Hex(r2)|] == Hex(r2);
  }

  lemma {:induction false} HexLength(b: string)
    requires Base64.IsBytes(b)
    ensures |Hex(b)| == 2 * |b|
  {
    if b != "" { HexLength(b[..|b| - 1]); }
  }

  /** The value of a lower-case hexadecimal digit. */
  function HexValue(c: char): Option<nat>
  {
    if '0' <= c <= '9' then Some(c as int - '0' as int)
    else if 'a' <= c <= 'f' then Some(c as int - 'a' as int + 10)
    else None
  }

  /** Every byte is printed as two lower-case hexadecimal digits, the higher first. */
  lemma {:induction false} HexRead(b: string, k: nat)
    requires Base64.IsBytes(b) && k < |b|
    ensures |Hex(b)| == 2 * |b|
    ensures var high, low := HexValue(Hex(b)[2 * k]), HexValue(Hex(b)[2 * k + 1]);
            high.Some? && low.Some? && high.value < 16 && low.value < 16 &&
            16 * high.value + low.value == b[k] as int
  {
    HexLength(b);
    var n := |b| - 1;
    HexLength(b[..n]);
    if k < n {
      HexRead(b[..n], k);
      assert Hex(b)[..2 * n] == Hex(b[..n]);
    }
  }

  lemma {:induction false} HexInjective(a: string, b: string)
    requires Base64.IsBytes(a) && Base64.IsBytes(b) && |a| == |b|
    ensures Hex(a) == Hex(b) ==> a == b
  {
    if a != "" && Hex(a) == Hex(b) {
      var k := |a| - 1;
      HexLength(a[..k]);
      HexLength(b[..k]);
      assert Hex(a)[..2 * k] == Hex(a[..k]) && Hex(b)[..2 * k] == Hex(b[..k]);
      HexInjective(a[..k], b[..k]);
      assert Hex(a)[2 * k] == Hex(b)[2 * k] && Hex(a)[2 * k + 1] == Hex(b)[2 * k + 1];
      assert a == a[..k] + [a[k]] && b == b[..k] + [b[k]];
    }
  }

  // ----- verification against the ideal set of revoked tokens -----

  /** Over every harmless run of calls on the list, loads of any entries and evictions included,
      verify answers at any later time what it would answer with an unpurged set of every token
      ever revoked. */
  lemma {:induction false} VerifyAgreesWithIdeal(hmac: Hmac, secret: string, w: World, events: seq<Event>,
      now: int, start: int, token: string)
    requires w.list == [] && w.ideal == {}
    requires Timely(w, events) && HarmlessRun(w, events, ExpOf) && Run(w, events, ExpOf).now <= now
    ensures var v := Run(w, events, ExpOf);
            Accepted(hmac, token, secret, now, start, Listed(v.list, token)) <==>
            Accepted(hmac, token, secret, now, start, token in v.ideal)
  {
    RunAgrees(w, events, ExpOf, now, token);
  }

  /** So it does over every run without eviction in which loaded entries carry at least the expiry of
      their tokens. */
  lemma {:induction false} OrdinaryRunAgrees(hmac: Hmac, secret: string, w: World, events: seq<Event>,
      now: int, start: int, token: string)
    requires w.list == [] && w.ideal == {}
    requires OrdinaryRun(w, events, ExpOf) && Run(w, events, ExpOf).now <= now
    ensures var v := Run(w, events, ExpOf);
            Accepted(hmac, token, secret, now, start, Listed(v.list, token)) <==>
            Accepted(hmac, token, secret, now, start, token in v.ideal)
  {
    OrdinaryIsHarmless(w, events, ExpOf);
    VerifyAgreesWithIdeal(hmac, secret, w, events, now, start, token);
  }
}
