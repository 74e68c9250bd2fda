/** PasswordUtil: the salted record "$pbkdf2-sha256$iterations$salt$hash", its parser and its
    constant-time comparison. The key derivation is any function; None is its failure. */
module Password {
  import opened Wrappers
  import opened Text
  import opened Bits
  import Base64

  /** password, salt, iterations, length of the derived key */
  type Kdf = (string, string, int, int) -> Option<string>

  ghost predicate IsKdf(kdf: Kdf)
  {
    forall p, s, n, len :: kdf(p, s, n, len).Some? ==>
        |kdf(p, s, n, len).value| == len && Base64.IsBytes(kdf(p, s, n, len).value)
  }

  const PREFIX := "$pbkdf2-sha256$"
  const DEFAULT_ITERATIONS := 310000
  const SALT_BYTES := 32
  const HASH_BYTES := 32

  predicate IsHashed(s: string) { |s| > 15 && s[..15] == PREFIX }

  /** The record of a password under a salt; empty when the derivation or the salt failed. */
  function Record(kdf: Kdf, password: string, salt: Option<string>): string
  {
    match salt
    case None => ""
    case Some(bytes) =>
      match kdf(password, bytes, DEFAULT_ITERATIONS, HASH_BYTES)
      case None => ""
      case Some(derived) =>
        PREFIX + Fields(PrintInt(DEFAULT_ITERATIONS), Base64.Encode(bytes), Base64.Encode(derived))
  }

  function Fields(a: string, b: string, c: string): string { a + "$" + b + "$" + c }

  /** diff after the first n rounds of the comparison loop. */
  function Diff(a: string, b: string, n: nat): nat
    requires n <= |a| && n <= |b|
  {
    if n == 0 then 0 else Or(Diff(a, b, n - 1), Xor(a[n - 1] as int, b[n - 1] as int))
  }

  predicate Accepts(kdf: Kdf, password: string, encoded: string)
  {
    IsHashed(encoded) &&
    var rest := encoded[15..];
    var d1 := FindChar(rest, '$', 0);
    d1 != NPOS &&
    var d2 := FindChar(rest, '$', d1 + 1);
    d2 != NPOS &&
    var iterations := Stoi(rest[..d1]);
    iterations.Some? && iterations.value > 0 &&
    var salt, expected := Base64.Decode(rest[d1 + 1..d2]), Base64.Decode(rest[d2 + 1..]);
    salt != "" && expected != "" && kdf(password, salt, iterations.value, |expected|) == Some(expected)
  }

  method Hash(kdf: Kdf, password: string, salt: Option<string>) returns (record: string)
    requires IsKdf(kdf) && (salt.Some? ==> |salt.value| == SALT_BYTES && Base64.IsBytes(salt.value))
    ensures record == Record(kdf, password, salt)
  {
    if salt.None? { return ""; }
    var derived := kdf(password, salt.value, DEFAULT_ITERATIONS, HASH_BYTES);
    if derived.None? { return ""; }
    var saltB64 := Base64.Base64Encode(salt.value);
    var hashB64 := Base64.Base64Encode(derived.value);
    record := PREFIX + Fields(PrintInt(DEFAULT_ITERATIONS), saltB64, hashB64);
  }

  method Verify(kdf: Kdf, password: string, encoded: string) returns (ok: bool)
    requires IsKdf(kdf)
    ensures ok == Accepts(kdf, password, encoded)
  {
    hide FindChar, Stoi, Base64.Decode;
    if !IsHashed(encoded) { return false; }
    var rest := encoded[15..];
    var d1 := FindChar(rest, '$', 0);
    if d1 == NPOS { return false; }
    var d2 := FindChar(rest, '$', d1 + 1);
    if d2 == NPOS { return false; }
    var iterations := Stoi(rest[..d1]);
    if iterations.None? { return false; }
    if iterations.value <= 0 { return false; }
    var salt := Base64.Base64Decode(rest[d1 + 1..d2]);
    var expected := Base64.Base64Decode(rest[d2 + 1..]);
    if salt == "" || expected == "" { return false; }
    var derived := kdf(password, salt, iterations.value, |expected|);
    if derived.None? { return false; }
    ok := SameBytes(derived.value, expected);
  }

  /** The comparison loop. */
  method SameBytes(a: string, b: string) returns (same: bool)
    requires |a| == |b|
    ensures same <==> a == b
  {
    var diff := 0;
    for i := 0 to |a|
      invariant diff == Diff(a, b, i)
    {
      diff := Or(diff, Xor(a[i] as int, b[i] as int));
    }
    DiffIsZero(a, b, |a|);
    assert a[..|a|] == a && b[..|b|] == b;
    same := diff == 0;
  }

  /** The accumulated difference is zero exactly when the compared parts are equal. */
  lemma {:induction false} DiffIsZero(a: string, b: string, n: nat)
    requires n <= |a| && n <= |b|
    ensures Diff(a, b, n) == 0 <==> a[..n] == b[..n]
  {
    if n > 0 {
      DiffIsZero(a, b, n - 1);
      var x := Xor(a[n - 1] as int, b[n - 1] as int);
      XorIsZero(a[n - 1] as int, b[n - 1] as int);
      OrIsZero(Diff(a, b, n - 1), x);
      assert a[..n] == a[..n - 1] + [a[n - 1]] && b[..n] == b[..n - 1] + [b[n - 1]];
    }
  }

  ghost predicate NoDollar(s: string) { forall i :: 0 <= i < |s| ==> s[i] != '$' }

  lemma {:induction false} SplitFields(a: string, b: string, c: string)
    requires NoDollar(a) && NoDollar(b)
    ensures var rest, d2 := Fields(a, b, c), |a| + 1 + |b|;
            FindChar(rest, '$', 0) == |a| && FindChar(rest, '$', |a| + 1) == d2 &&
            rest[..|a|] == a && rest[|a| + 1..d2] == b && rest[d2 + 1..] == c
  {
    var rest, d2 := Fields(a, b, c), |a| + 1 + |b|;
    FindCharIs(rest, '$', 0, |a|);
    FindCharIs(rest, '$', |a| + 1, d2);
  }

  lemma {:induction false} EncodedNoDollar(x: string)
    ensures NoDollar(Base64.Encode(x))
  {
    Base64.EncodeShape(x);
    hide Base64.Encode;
    var e, n := Base64.Encode(x), |Base64.Encode(x)| - Base64.PadCount(|x|);
    forall i | 0 <= i < |e| ensures e[i] != '$' {
      if i < n { assert Base64.IsTableChar(e[i]); }
    }
  }

  lemma PrintedIterations(n: int)
    ensures NoDollar(PrintInt(n))
    ensures Stoi(PrintInt(n)) == if -INT32_MAX - 1 <= n <= INT32_MAX then Some(n) else None
  {
    StrtollPrintInt(n);
    hide PrintNat, Strtoll;
  }

  lemma PrefixLength()
    ensures |PREFIX| == 15
  {
  }

  /** A stored text is taken for a record exactly when the prefix, and something after it, is there. */
  lemma IsHashedExactly(s: string)
    ensures IsHashed(s) <==> exists rest :: rest != "" && s == "$pbkdf2-sha256$" + rest
  {
    PrefixLength();
    if IsHashed(s) { assert s == "$pbkdf2-sha256$" + s[15..]; }
  }

  /** The record in full. */
  lemma {:induction false} RecordIs(kdf: Kdf, password: string, salt: string, key: string)
    requires kdf(password, salt, 310000, 32) == Some(key)
    ensures Record(kdf, password, Some(salt)) ==
            "$pbkdf2-sha256$" + "310000" + "$" + Base64.Encode(salt) + "$" + Base64.Encode(key)
  {
    var text := PrintInt(310000);
    assert PrintNat(31) == "31" && PrintNat(310) == "310" && PrintNat(3100) == "3100" && PrintNat(31000) == "31000";
    assert text == "310000";
    hide Base64.Encode, PrintInt, PrintNat;
    var a, b := Base64.Encode(salt), Base64.Encode(key);
    assert Fields(text, a, b) == text + "$" + a + "$" + b;
    assert PREFIX + (text + "$" + a + "$" + b) == PREFIX + text + "$" + a + "$" + b;
  }

  /** A record with two separators is judged by its own three fields. */
  lemma {:induction false} FieldsDecide(kdf: Kdf, q: string, a: string, b: string, c: string)
    requires NoDollar(a) && NoDollar(b)
    ensures var n, salt, key := Stoi(a), Base64.Decode(b), Base64.Decode(c);
            IsHashed(PREFIX + Fields(a, b, c)) &&
            (Accepts(kdf, q, PREFIX + Fields(a, b, c)) <==>
               n.Some? && n.value > 0 && salt != "" && key != "" && kdf(q, salt, n.value, |key|) == Some(key))
  {
    hide Base64.Decode, FindChar, Stoi, PREFIX;
    PrefixLength();
    SplitFields(a, b, c);
    var record := PREFIX + Fields(a, b, c);
    assert record[..15] == PREFIX && record[15..] == Fields(a, b, c);
  }

  /** Anything else is refused: whatever is accepted carries the prefix and both separators. */
  lemma {:induction false} OnlyRecords(kdf: Kdf, q: string, encoded: string)
    requires Accepts(kdf, q, encoded)
    ensures exists a, b, c :: NoDollar(a) && NoDollar(b) && encoded == PREFIX + Fields(a, b, c)
  {
    hide Base64.Decode, Stoi, PREFIX;
    var rest := encoded[15..];
    var d1 := FindChar(rest, '$', 0);
    var d2 := FindChar(rest, '$', d1 + 1);
    FindCharSound(rest, '$', 0);
    FindCharSound(rest, '$', d1 + 1);
    hide FindChar;
    var a, b, c := rest[..d1], rest[d1 + 1..d2], rest[d2 + 1..];
    assert rest == Fields(a, b, c) by { assert rest == rest[..d1] + [rest[d1]] + b + [rest[d2]] + c; }
    assert encoded == PREFIX + rest;
    assert NoDollar(a) && NoDollar(b);
  }

  /** A printed record is verified under its own salt, its own length of key and its own number of
      iterations, which has to be positive and to fit an int. */
  lemma {:induction false} VerifyPrinted(kdf: Kdf, q: string, n: int, salt: string, key: string)
    requires Base64.IsBytes(salt) && Base64.IsBytes(key)
    ensures Accepts(kdf, q, PREFIX + Fields(PrintInt(n), Base64.Encode(salt), Base64.Encode(key))) <==>
              0 < n <= INT32_MAX && salt != "" && key != "" && kdf(q, salt, n, |key|) == Some(key)
  {
    hide PrintInt, Base64.Encode, Base64.Decode, Stoi, PREFIX;
    PrintedIterations(n);
    EncodedNoDollar(salt);
    FieldsDecide(kdf, q, PrintInt(n), Base64.Encode(salt), Base64.Encode(key));
    Base64.RoundTrip(salt);
    Base64.RoundTrip(key);
  }

  /** Verifying q against the record of p holds exactly when the derived keys are equal. */
  lemma {:induction false} VerifyRecord(kdf: Kdf, p: string, q: string, salt: string)
    requires IsKdf(kdf) && |salt| == SALT_BYTES && Base64.IsBytes(salt)
    requires kdf(p, salt, DEFAULT_ITERATIONS, HASH_BYTES).Some?
    ensures Accepts(kdf, q, Record(kdf, p, Some(salt))) <==>
              kdf(q, salt, DEFAULT_ITERATIONS, HASH_BYTES) == kdf(p, salt, DEFAULT_ITERATIONS, HASH_BYTES)
    ensures IsHashed(Record(kdf, p, Some(salt)))
  {
    hide Base64.Encode, Base64.Decode, FindChar, Stoi, PREFIX;
    var derived := kdf(p, salt, DEFAULT_ITERATIONS, HASH_BYTES).value;
    VerifyPrinted(kdf, q, DEFAULT_ITERATIONS, salt, derived);
    PrintedIterations(DEFAULT_ITERATIONS);
    EncodedNoDollar(salt);
    FieldsDecide(kdf, q, PrintInt(DEFAULT_ITERATIONS), Base64.Encode(salt), Base64.Encode(derived));
    hide PrintInt;
  }
}
