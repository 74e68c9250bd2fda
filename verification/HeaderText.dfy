/** parseHeaders and buildHeadersString of HttpTransport: header text read into an ordered map of
    lower-case keys, and printed again. */
module HeaderText {
  import opened Wrappers
  import opened Text

  type Headers = map<string, string>

  predicate IsBreak(c: char) { c == '\r' || c == '\n' }

  function LineEnd(s: string, i: nat): (r: nat)
    requires i <= |s|
    ensures i <= r <= |s| && (forall k :: i <= k < r ==> !IsBreak(s[k])) && (r < |s| ==> IsBreak(s[r]))
    decreases |s| - i
  {
    if i < |s| && !IsBreak(s[i]) then LineEnd(s, i + 1) else i
  }

  function BreaksEnd(s: string, i: nat): (r: nat)
    requires i <= |s|
    ensures i <= r <= |s| && (i < |s| && IsBreak(s[i]) ==> i < r)
    decreases |s| - i
  {
    if i < |s| && IsBreak(s[i]) then BreaksEnd(s, i + 1) else i
  }

  /** boost::split at any of CR and LF, adjacent separators counting as one. */
  function Lines(s: string): seq<string>
    decreases |s|
  {
    var e := LineEnd(s, 0);
    if e == |s| then [s] else [s[..e]] + Lines(s[BreaksEnd(s, e)..])
  }

  function TrimLeft(s: string): string
  {
    if s != "" && IsSpace(s[0]) then TrimLeft(s[1..]) else s
  }

  function TrimRight(s: string): string
  {
    if s != "" && IsSpace(s[|s| - 1]) then TrimRight(s[..|s| - 1]) else s
  }

  function Trim(s: string): string { TrimRight(TrimLeft(s)) }

  function LowerChar(c: char): char { if 'A' <= c <= 'Z' then (c as int + 32) as char else c }

  function Lower(s: string): string { seq(|s|, i requires 0 <= i < |s| => LowerChar(s[i])) }

  /** The entry a line makes, if any: cut at the first colon, both sides trimmed and not empty. */
  function LineEntry(line: string): Option<(string, string)>
  {
    var colon := FindChar(line, ':', 0);
    if line == "" || colon == NPOS then None
    else
      var key, value := Trim(line[..colon]), Trim(line[colon + 1..]);
      if key != "" && value != "" then Some((Lower(key), value)) else None
  }

  function AddLine(m: Headers, line: string): Headers
  {
    match LineEntry(line)
    case None => m
    case Some(e) => m[e.0 := e.1]
  }

  function AddLines(m: Headers, lines: seq<string>): Headers
    decreases |lines|
  {
    if lines == [] then m else AddLines(AddLine(m, lines[0]), lines[1..])
  }

  function Parse(s: string, m: Headers): Headers { if s == "" then m else AddLines(m, Lines(s)) }

  function Line(key: string, value: string): string { key + ": " + value + "\r\n" }

  /** The lines of a map, its keys in the order given. */
  function Build(m: Headers, keys: seq<string>): string
    requires forall k :: k in keys ==> k in m
  {
    if keys == [] then "" else Line(keys[0], m[keys[0]]) + Build(m, keys[1..])
  }

  // ----- the loops of the source -----

  method Split(s: string) returns (lines: seq<string>)
    ensures lines == Lines(s)
  {
    lines := [];
    var rest := s;
    while true
      invariant lines + Lines(rest) == Lines(s)
      decreases |rest|
    {
      var e := LineEnd(rest, 0);
      if e == |rest| {
        lines := lines + [rest];
        return;
      }
      assert lines + ([rest[..e]] + Lines(rest[BreaksEnd(rest, e)..])) ==
          lines + [rest[..e]] + Lines(rest[BreaksEnd(rest, e)..]);
      lines := lines + [rest[..e]];
      rest := rest[BreaksEnd(rest, e)..];
    }
  }

  method ParseHeaders(text: string, headers: Headers) returns (result: Headers)
    ensures result == Parse(text, headers)
  {
    result := headers;
    if text == "" { return; }
    var lines := Split(text);
    hide Lines, FindChar, Trim, Lower;
    for i := 0 to |lines|
      invariant AddLines(result, lines[i..]) == AddLines(headers, lines)
    {
      assert lines[i..][1..] == lines[i + 1..];
      var line := lines[i];
      if line == "" { continue; }
      var colon := FindChar(line, ':', 0);
      if colon != NPOS {
        var key := Trim(line[..colon]);
        var value := Trim(line[colon + 1..]);
        if key != "" && value != "" {
          result := result[Lower(key) := value];
        }
      }
    }
  }

  method BuildHeadersString(headers: Headers, keys: seq<string>) returns (text: string)
    requires forall k :: k in keys ==> k in headers
    ensures text == Build(headers, keys)
  {
    text := "";
    for i := 0 to |keys|
      invariant text + Build(headers, keys[i..]) == Build(headers, keys)
    {
      assert keys[i..][1..] == keys[i + 1..];
      var line := Line(keys[i], headers[keys[i]]);
      assert text + (line + Build(headers, keys[i + 1..])) == text + line + Build(headers, keys[i + 1..]);
      text := text + line;
    }
    assert keys[|keys|..] == [];
    assert text + "" == text;
  }

  // ----- what parsing yields -----

  /** Keys keep every character but the capital letters, which become the small ones. */
  lemma LowerIs(s: string, i: nat)
    requires i < |s|
    ensures |Lower(s)| == |s|
    ensures if 'A' <= s[i] <= 'Z' then
              'a' <= Lower(s)[i] <= 'z' && Lower(s)[i] as int - 'a' as int == s[i] as int - 'A' as int
            else Lower(s)[i] == s[i]
  {
  }

  ghost predicate Trimmed(s: string) { s != "" && !IsSpace(s[0]) && !IsSpace(s[|s| - 1]) }

  ghost predicate Unbroken(s: string) { forall i :: 0 <= i < |s| ==> !IsBreak(s[i]) }

  ghost predicate NoColon(s: string) { forall i :: 0 <= i < |s| ==> s[i] != ':' }

  ghost predicate GoodKey(k: string) { Trimmed(k) && Unbroken(k) && NoColon(k) && Lower(k) == k }

  ghost predicate GoodValue(v: string) { Trimmed(v) && Unbroken(v) }

  ghost predicate Good(m: Headers) { forall k :: k in m ==> GoodKey(k) && GoodValue(m[k]) }

  lemma {:induction false} TrimLeftIs(s: string)
    ensures var r := TrimLeft(s);
            |r| <= |s| && r == s[|s| - |r|..] && (r != "" ==> !IsSpace(r[0]))
  {
    if s != "" && IsSpace(s[0]) { TrimLeftIs(s[1..]); }
  }

  lemma {:induction false} TrimRightIs(s: string)
    ensures var r := TrimRight(s);
            |r| <= |s| && r == s[..|r|] && (r != "" ==> !IsSpace(r[|r| - 1]))
  {
    if s != "" && IsSpace(s[|s| - 1]) { TrimRightIs(s[..|s| - 1]); }
  }

  /** Trimming cuts a stretch out of the text, and what is left has no space at either end. */
  lemma {:induction false} TrimIs(s: string)
    ensures var r := Trim(s);
            (exists i, j :: 0 <= i <= j <= |s| && r == s[i..j]) && (r != "" ==> Trimmed(r))
  {
    TrimLeftIs(s);
    TrimRightIs(TrimLeft(s));
    var l := TrimLeft(s);
    assert Trim(s) == s[|s| - |l|..|s| - |l| + |Trim(s)|];
  }

  lemma TrimTrimmed(s: string)
    requires Trimmed(s)
    ensures Trim(s) == s && Trim(" " + s) == s
  {
    assert (" " + s)[1..] == s;
  }

  lemma {:induction false} LineEntryGood(line: string)
    requires Unbroken(line)
    ensures LineEntry(line).Some? ==> GoodKey(LineEntry(line).value.0) && GoodValue(LineEntry(line).value.1)
  {
    var colon := FindChar(line, ':', 0);
    if line != "" && colon != NPOS {
      FindCharSound(line, ':', 0);
      TrimPart(line, 0, colon);
      TrimPart(line, colon + 1, |line|);
      hide FindChar;
      assert line[..colon] == line[0..colon] && line[colon + 1..] == line[colon + 1..|line|];
      hide Trim, Trimmed, Unbroken;
      var key := Trim(line[..colon]);
      NoColonInside(line, colon, key);
      LowerGood(key);
    }
  }

  ghost predicate Inside(part: string, s: string)
  {
    forall i :: 0 <= i < |part| ==> part[i] in s
  }

  lemma {:induction false} TrimPart(line: string, i: nat, j: nat)
    requires i <= j <= |line| && Unbroken(line)
    ensures var r := Trim(line[i..j]); Inside(r, line[i..j]) && Unbroken(r) && (r != "" ==> Trimmed(r))
  {
    TrimIs(line[i..j]);
    hide Trim, Trimmed;
    var r := Trim(line[i..j]);
    var k, l :| 0 <= k <= l <= |line[i..j]| && r == line[i..j][k..l];
    StretchOf(line[i..j], k, l);
    UnbrokenPart(line, i, j);
    UnbrokenPart(line[i..j], k, l);
  }

  lemma StretchOf(s: string, i: nat, j: nat)
    requires i <= j <= |s|
    ensures Inside(s[i..j], s)
  {
    assert forall q :: 0 <= q < j - i ==> s[i..j][q] == s[i + q];
  }

  lemma UnbrokenPart(s: string, i: nat, j: nat)
    requires i <= j <= |s| && Unbroken(s)
    ensures Unbroken(s[i..j])
  {
    assert forall q :: 0 <= q < j - i ==> s[i..j][q] == s[i + q];
  }

  lemma NoColonInside(line: string, colon: nat, key: string)
    requires colon <= |line| && Inside(key, line[..colon])
    requires forall i :: 0 <= i < colon ==> line[i] != ':'
    ensures NoColon(key)
  {
    assert forall c :: c in line[..colon] ==> c != ':';
  }

  lemma LowerGood(key: string)
    requires Unbroken(key) && NoColon(key) && (key != "" ==> Trimmed(key))
    ensures key != "" ==> GoodKey(Lower(key))
  {
  }

  lemma {:induction false} LinesUnbroken(s: string)
    ensures forall i :: 0 <= i < |Lines(s)| ==> Unbroken(Lines(s)[i])
    decreases |s|
  {
    var e := LineEnd(s, 0);
    if e < |s| { LinesUnbroken(s[BreaksEnd(s, e)..]); }
  }

  lemma {:induction false} AddLinesGood(m: Headers, lines: seq<string>)
    requires Good(m) && forall i :: 0 <= i < |lines| ==> Unbroken(lines[i])
    ensures Good(AddLines(m, lines))
    decreases |lines|
  {
    if lines != [] {
      LineEntryGood(lines[0]);
      AddLinesGood(AddLine(m, lines[0]), lines[1..]);
    }
  }

  /** Whatever the text, keys come out lower-case, trimmed, unbroken and without a colon, and values
      trimmed and unbroken. */
  lemma {:induction false} ParseGood(s: string)
    ensures Good(Parse(s, map[]))
  {
    LinesUnbroken(s);
    if s != "" { AddLinesGood(map[], Lines(s)); }
  }

  /** A key has the value of the last line that mentions it. */
  lemma {:induction false} LastLineWins(m: Headers, lines: seq<string>, i: nat)
    requires i < |lines| && LineEntry(lines[i]).Some?
    requires forall j :: i < j < |lines| && LineEntry(lines[j]).Some? ==>
        LineEntry(lines[j]).value.0 != LineEntry(lines[i]).value.0
    ensures var e := LineEntry(lines[i]).value; e.0 in AddLines(m, lines) && AddLines(m, lines)[e.0] == e.1
    decreases |lines|
  {
    hide LineEntry;
    if i > 0 {
      LastLineWins(AddLine(m, lines[0]), lines[1..], i - 1);
    } else {
      Untouched(AddLine(m, lines[0]), lines[1..], LineEntry(lines[0]).value.0);
    }
  }

  lemma {:induction false} Untouched(m: Headers, lines: seq<string>, k: string)
    requires forall j :: 0 <= j < |lines| && LineEntry(lines[j]).Some? ==> LineEntry(lines[j]).value.0 != k
    ensures (k in AddLines(m, lines) <==> k in m) && (k in m ==> AddLines(m, lines)[k] == m[k])
    decreases |lines|
  {
    hide LineEntry;
    if lines != [] {
      assert LineEntry(lines[0]).Some? ==> LineEntry(lines[0]).value.0 != k;
      forall j | 0 <= j < |lines[1..]| && LineEntry(lines[1..][j]).Some?
        ensures LineEntry(lines[1..][j]).value.0 != k
      {
        assert lines[1..][j] == lines[j + 1];
      }
      Untouched(AddLine(m, lines[0]), lines[1..], k);
    }
  }

  // ----- printing and reading back -----

  lemma {:induction false} LineEndIs(s: string, i: nat, e: nat)
    requires i <= e <= |s| && (forall k :: i <= k < e ==> !IsBreak(s[k])) && (e < |s| ==> IsBreak(s[e]))
    ensures LineEnd(s, i) == e
    decreases e - i
  {
    if i < e { LineEndIs(s, i + 1, e); }
  }

  /** A printed line is cut off whole, and what follows it is read as if by itself. */
  lemma {:induction false} FirstLine(line: string, rest: string)
    requires Unbroken(line) && (rest == "" || !IsBreak(rest[0]))
    ensures Lines(line + "\r\n" + rest) == [line] + Lines(rest)
  {
    var s := line + "\r\n" + rest;
    LineEndIs(s, 0, |line|);
    assert s[|line|] == '\r' && s[|line| + 1] == '\n';
    assert |line| + 2 < |s| ==> s[|line| + 2] == rest[0];
    assert BreaksEnd(s, |line| + 2) == |line| + 2;
    assert BreaksEnd(s, |line| + 1) == |line| + 2;
    assert BreaksEnd(s, |line|) == |line| + 2;
    assert s[..|line|] == line && s[|line| + 2..] == rest;
  }

  lemma {:induction false} EntryBack(key: string, value: string)
    requires GoodKey(key) && GoodValue(value)
    ensures LineEntry(key + ": " + value) == Some((key, value)) && Unbroken(key + ": " + value)
  {
    var line := key + ": " + value;
    FindCharIs(line, ':', 0, |key|);
    assert line[..|key|] == key && line[|key| + 1..] == " " + value;
    TrimTrimmed(key);
    TrimTrimmed(value);
    hide Trim, FindChar;
  }

  lemma BuildStart(m: Headers, keys: seq<string>)
    requires Good(m) && forall k :: k in keys ==> k in m
    ensures Build(m, keys) == "" || !IsBreak(Build(m, keys)[0])
  {
    if keys != [] { assert GoodKey(keys[0]); }
  }

  /** Reading a printed map adds exactly its entries. */
  lemma {:induction false} ReadBuilt(m: Headers, keys: seq<string>, acc: Headers)
    requires Good(m) && forall k :: k in keys ==> k in m
    ensures var r := AddLines(acc, Lines(Build(m, keys)));
            (forall k :: k in keys ==> k in r && r[k] == m[k]) &&
            (forall k :: k !in keys ==> (k in r <==> k in acc) && (k in acc ==> r[k] == acc[k]))
    decreases |keys|
  {
    if keys == [] {
      assert Lines("") == [""];
      assert AddLines(acc, [""]) == AddLines(AddLine(acc, ""), []);
    } else {
      hide Lines, LineEntry, GoodKey, GoodValue, AddLines, Build;
      ReadFirst(m, keys, acc);
      ReadBuilt(m, keys[1..], acc[keys[0] := m[keys[0]]]);
      assert keys == [keys[0]] + keys[1..];
    }
  }

  lemma {:induction false} ReadFirst(m: Headers, keys: seq<string>, acc: Headers)
    requires Good(m) && keys != [] && forall k :: k in keys ==> k in m
    ensures AddLines(acc, Lines(Build(m, keys))) ==
        AddLines(acc[keys[0] := m[keys[0]]], Lines(Build(m, keys[1..])))
  {
    var k0, rest := keys[0], Build(m, keys[1..]);
    var line := k0 + ": " + m[k0];
    EntryBack(k0, m[k0]);
    BuildStart(m, keys[1..]);
    FirstLine(line, rest);
    hide Lines, LineEntry, GoodKey, GoodValue;
    assert Build(m, keys) == line + "\r\n" + rest;
    assert ([line] + Lines(rest))[1..] == Lines(rest);
  }

  /** Parsing, printing in any order of the keys, and parsing again gives the same map. */
  lemma {:induction false} ParseBuildParse(s: string, keys: seq<string>)
    requires forall k :: k in keys <==> k in Parse(s, map[])
    ensures Parse(Build(Parse(s, map[]), keys), map[]) == Parse(s, map[])
  {
    var m := Parse(s, map[]);
    ParseGood(s);
    ReadBuilt(m, keys, map[]);
    hide Parse, Lines;
    var text := Build(m, keys);
    ParseIs(text);
    var r := AddLines(map[], Lines(text));
    assert r.Keys == m.Keys;
    assert forall k :: k in m ==> r[k] == m[k];
  }

  lemma ParseIs(text: string)
    ensures Parse(text, map[]) == AddLines(map[], Lines(text))
  {
    if text == "" {
      assert Lines("") == [""];
      assert AddLines(map[], [""]) == AddLines(AddLine(map[], ""), []);
    }
  }
}
