/** Character classes and string operations with the semantics of the
    JavaScript built-ins the application uses: `\s`, `\w`, `trim`,
    `indexOf`/`includes`, `startsWith`, `split` on one character, `join`,
    `toLowerCase`/`toUpperCase` (ASCII letters only) and `Number.toString`
    for natural numbers. */
module Strings {

  /** The characters JavaScript's `\s` and `String.prototype.trim` treat as
      white space: WhiteSpace and LineTerminator of ECMAScript. */
  predicate IsSpace(c: char) {
    c == ' ' || c == '\t' || c == '\n' || c == '\r' || c == '\U{B}' || c == '\U{C}'
    || c == '\U{A0}' || c == '\U{1680}' || ('\U{2000}' <= c <= '\U{200A}')
    || c == '\U{2028}' || c == '\U{2029}' || c == '\U{202F}' || c == '\U{205F}'
    || c == '\U{3000}' || c == '\U{FEFF}'
  }

  /** JavaScript's `\w`: `[A-Za-z0-9_]`. */
  predicate IsWordChar(c: char) {
    ('a' <= c <= 'z') || ('A' <= c <= 'Z') || ('0' <= c <= '9') || c == '_'
  }

  predicate IsDigit(c: char) {
    '0' <= c <= '9'
  }

  predicate IsUpperAscii(c: char) {
    'A' <= c <= 'Z'
  }

  function LowerChar(c: char): (r: char)
    ensures IsUpperAscii(c) ==> r as int == c as int + 32
    ensures !IsUpperAscii(c) ==> r == c
    ensures !IsUpperAscii(r)
  {
    if IsUpperAscii(c) then (c as int + 32) as char else c
  }

  function UpperChar(c: char): (r: char)
    ensures 'a' <= c <= 'z' ==> r as int == c as int - 32
    ensures !('a' <= c <= 'z') ==> r == c
    ensures !('a' <= r <= 'z')
  {
    if 'a' <= c <= 'z' then (c as int - 32) as char else c
  }

  /** `toLowerCase` on ASCII letters; every other character is kept. */
  function Lower(s: string): (r: string)
    ensures |r| == |s|
    ensures forall i :: 0 <= i < |s| ==> r[i] == LowerChar(s[i])
  {
    seq(|s|, i requires 0 <= i < |s| => LowerChar(s[i]))
  }

  predicate NoUpper(s: string) {
    forall i :: 0 <= i < |s| ==> !IsUpperAscii(s[i])
  }

  lemma {:induction false} LowerIdempotent(s: string)
    ensures NoUpper(Lower(s))
    ensures Lower(Lower(s)) == Lower(s)
  {
  }

  lemma LowerOfNoUpper(s: string)
    requires NoUpper(s)
    ensures Lower(s) == s
  {
  }

  predicate StartsWith(s: string, prefix: string) {
    |prefix| <= |s| && s[..|prefix|] == prefix
  }

  /** `t` occurs in `s` at index `j`. */
  predicate OccursAt(s: string, t: string, j: int) {
    0 <= j && j + |t| <= |s| && s[j..j + |t|] == t
  }

  /** `s.indexOf(t)`: the first index at which `t` occurs, or -1. */
  function IndexOf(s: string, t: string): (r: int)
    ensures -1 <= r <= |s|
    ensures r >= 0 ==> OccursAt(s, t, r)
    ensures forall j :: 0 <= j < (if r < 0 then |s| + 1 else r) ==> !OccursAt(s, t, j)
    decreases |s|
  {
    if |t| > |s| then -1
    else if s[..|t|] == t then 0
    else
      var k := IndexOf(s[1..], t);
      assert forall j :: 1 <= j && OccursAt(s, t, j) ==> OccursAt(s[1..], t, j - 1);
      if k < 0 then -1 else k + 1
  }

  /** `s.includes(t)`. */
  predicate Contains(s: string, t: string) {
    IndexOf(s, t) >= 0
  }

  lemma {:induction false} ContainsIff(s: string, t: string)
    ensures Contains(s, t) <==> exists j :: OccursAt(s, t, j)
  {
    if Contains(s, t) {
      assert OccursAt(s, t, IndexOf(s, t));
    }
  }

  lemma {:induction false} ContainsOccurrence(s: string, t: string, j: int)
    requires OccursAt(s, t, j)
    ensures Contains(s, t)
  {
    ContainsIff(s, t);
  }

  lemma {:induction false} ContainsInPrefix(s: string, t: string, n: nat)
    requires n <= |s|
    requires Contains(s[..n], t)
    ensures Contains(s, t)
  {
    var j := IndexOf(s[..n], t);
    assert s[..n][j..j + |t|] == s[j..j + |t|];
    ContainsOccurrence(s, t, j);
  }

  predicate IsBlank(s: string) {
    forall i :: 0 <= i < |s| ==> IsSpace(s[i])
  }

  function TrimStart(s: string): (r: string)
    ensures |r| <= |s|
    ensures r == [] || !IsSpace(r[0])
    ensures s != [] && IsSpace(s[0]) ==> |r| < |s|
    decreases |s|
  {
    if s != [] && IsSpace(s[0]) then TrimStart(s[1..]) else s
  }

  /** `TrimStart` drops a blank prefix and keeps the rest. */
  lemma {:induction false} TrimStartDropsBlank(s: string)
    ensures TrimStart(s) == s[|s| - |TrimStart(s)|..]
    ensures IsBlank(s[..|s| - |TrimStart(s)|])
    decreases |s|
  {
    if s != [] && IsSpace(s[0]) {
      var r := TrimStart(s[1..]);
      TrimStartDropsBlank(s[1..]);
      assert s[1..][..|s| - 1 - |r|] == s[1..|s| - |r|];
    }
  }

  /** `s.split(/\s+/)`: the pieces between maximal runs of white space; a
      leading or trailing run gives an empty first or last piece. */
  function SplitOnSpaceRuns(s: string): (r: seq<string>)
    ensures |r| >= 1
    ensures forall k :: 0 <= k < |r| ==> IsBlank(r[k]) ==> r[k] == []
    ensures forall k :: 0 < k < |r| - 1 ==> r[k] != []
    decreases |s|
  {
    if s == [] then [[]]
    else if IsSpace(s[0]) then
      var t := TrimStart(s);
      var rest := SplitOnSpaceRuns(t);
      assert t != [] ==> rest[0] != [] by {
        if t != [] {
          assert !IsSpace(t[0]);
          assert rest[0] == [t[0]] + SplitOnSpaceRuns(t[1..])[0];
        }
      }
      [[]] + rest
    else
      var rest := SplitOnSpaceRuns(s[1..]);
      var r := [[s[0]] + rest[0]] + rest[1..];
      assert forall k :: 0 < k < |r| ==> r[k] == rest[k];
      assert r[0][0] == s[0] && !IsSpace(s[0]);
      r
  }

  function TrimEnd(s: string): (r: string)
    ensures |r| <= |s| && r == s[..|r|]
    ensures r == [] || !IsSpace(r[|r| - 1])
    decreases |s|
  {
    if s != [] && IsSpace(s[|s| - 1]) then TrimEnd(s[..|s| - 1]) else s
  }

  /** `TrimEnd` drops a blank suffix. */
  lemma {:induction false} TrimEndDropsBlank(s: string)
    ensures IsBlank(s[|TrimEnd(s)|..])
    decreases |s|
  {
    if s != [] && IsSpace(s[|s| - 1]) {
      var r := TrimEnd(s[..|s| - 1]);
      TrimEndDropsBlank(s[..|s| - 1]);
      assert s[..|s| - 1][|r|..] == s[|r|..|s| - 1];
      assert s[|r|..] == s[|r|..|s| - 1] + [s[|s| - 1]];
    }
  }

  /** `s.trim()`: `s` without its leading and trailing white space. */
  function Trim(s: string): (r: string)
    ensures r == [] || (!IsSpace(r[0]) && !IsSpace(r[|r| - 1]))
  {
    var a := TrimStart(s);
    var b := TrimEnd(a);
    assert b != [] ==> b[0] == a[0];
    b
  }

  /** What is left after trimming occurs in `s` where the leading white
      space ends. */
  lemma TrimOccurs(s: string)
    ensures OccursAt(s, Trim(s), |s| - |TrimStart(s)|)
  {
    var a := TrimStart(s);
    var b := TrimEnd(a);
    TrimStartDropsBlank(s);
    assert s[|s| - |a|..][..|b|] == s[|s| - |a|..|s| - |a| + |b|];
  }

  /** Trimming gives the empty string exactly for blank input. */
  lemma {:induction false} TrimEmptyIffBlank(s: string)
    ensures Trim(s) == [] <==> IsBlank(s)
  {
    var a := TrimStart(s);
    var n := |s| - |a|;
    TrimStartDropsBlank(s);
    TrimEndDropsBlank(a);
    if !IsBlank(s) {
      var i :| 0 <= i < |s| && !IsSpace(s[i]);
      assert IsBlank(s[..n]);
      assert i >= n;
      assert a[i - n] == s[i];
      assert !IsBlank(a[0..]);
      assert a[0..] == a;
    }
  }

  /** A string `trim` leaves unchanged. */
  predicate IsTrimmed(s: string) {
    s == [] || (!IsSpace(s[0]) && !IsSpace(s[|s| - 1]))
  }

  lemma {:induction false} TrimIsTrimmed(s: string)
    ensures IsTrimmed(Trim(s))
  {
  }

  /** `s.split(sep)` for a one-character separator: always at least one
      piece, the empty string giving `[""]`. */
  function Split(s: string, sep: char): (r: seq<string>)
    ensures |r| >= 1
    ensures forall k :: 0 <= k < |r| ==> sep !in r[k]
    decreases |s|
  {
    if s == [] then [[]]
    else
      var rest := Split(s[1..], sep);
      if s[0] == sep then [[]] + rest
      else [[s[0]] + rest[0]] + rest[1..]
  }

  /** Every character of a piece comes from the split string. */
  lemma {:induction false} SplitPiecesWithin(s: string, sep: char)
    ensures forall k, i :: 0 <= k < |Split(s, sep)| && 0 <= i < |Split(s, sep)[k]| ==> Split(s, sep)[k][i] in s
    decreases |s|
  {
    if s != [] {
      SplitPiecesWithin(s[1..], sep);
      assert forall x :: x in s[1..] ==> x in s;
    }
  }

  /** `parts.join(sep)`. */
  function Join(parts: seq<string>, sep: char): (r: string)
    decreases |parts|
  {
    if |parts| == 0 then []
    else if |parts| == 1 then parts[0]
    else parts[0] + [sep] + Join(parts[1..], sep)
  }

  lemma {:induction false} JoinSplit(s: string, sep: char)
    ensures Join(Split(s, sep), sep) == s
    decreases |s|
  {
    if s != [] {
      JoinSplit(s[1..], sep);
      var rest := Split(s[1..], sep);
      if s[0] != sep {
        if |rest| > 1 {
          assert ([s[0]] + rest[0]) + [sep] + Join(rest[1..], sep)
              == [s[0]] + (rest[0] + [sep] + Join(rest[1..], sep));
        }
      } else {
        assert Split(s, sep) == [[]] + rest;
        assert ([[]] + rest)[1..] == rest;
      }
    }
  }

  predicate Separated(parts: seq<string>, sep: char) {
    forall k :: 0 <= k < |parts| ==> sep !in parts[k]
  }

  lemma {:induction false} SplitJoin(parts: seq<string>, sep: char)
    requires |parts| >= 1
    requires Separated(parts, sep)
    ensures Split(Join(parts, sep), sep) == parts
    decreases |parts|, |parts[0]|
  {
    if |parts[0]| > 0 {
      var tail := [parts[0][1..]] + parts[1..];
      assert Separated(tail, sep) by {
        forall k | 0 <= k < |tail| ensures sep !in tail[k] {
          if k == 0 {
            assert forall x :: x in parts[0][1..] ==> x in parts[0];
          } else {
            assert tail[k] == parts[k];
          }
        }
      }
      SplitJoin(tail, sep);
      assert tail[1..] == parts[1..];
      assert Join(parts, sep) == [parts[0][0]] + Join(tail, sep) by {
        if |parts| == 1 {
          assert parts[0] == [parts[0][0]] + parts[0][1..];
        } else {
          assert parts[0] == [parts[0][0]] + parts[0][1..];
          assert Join(tail, sep) == parts[0][1..] + [sep] + Join(parts[1..], sep);
        }
      }
      assert parts[0][0] != sep;
      assert [parts[0][0]] + parts[0][1..] == parts[0];
    } else if |parts| > 1 {
      SplitJoin(parts[1..], sep);
      assert Join(parts, sep) == [sep] + Join(parts[1..], sep);
      assert ([sep] + Join(parts[1..], sep))[1..] == Join(parts[1..], sep);
    }
  }

  lemma NotInPrefix(s: string, c: char, n: nat)
    requires c !in s && n <= |s|
    ensures c !in s[..n]
  {
    assert forall k :: 0 <= k < n ==> s[..n][k] == s[k];
  }

  lemma SeparatedUpdate(parts: seq<string>, sep: char, k: nat, v: string)
    requires Separated(parts, sep) && k < |parts| && sep !in v
    ensures Separated(parts[k := v], sep)
  {
    var q := parts[k := v];
    forall i | 0 <= i < |q| ensures sep !in q[i] {
      if i != k { assert q[i] == parts[i]; }
    }
  }

  lemma SeparatedPrefix(parts: seq<string>, sep: char, n: nat)
    requires Separated(parts, sep) && n <= |parts|
    ensures Separated(parts[..n], sep)
  {
    forall i | 0 <= i < n ensures sep !in parts[..n][i] { assert parts[..n][i] == parts[i]; }
  }

  function DigitChar(d: nat): (c: char)
    requires d < 10
    ensures IsDigit(c)
  {
    ('0' as int + d) as char
  }

  /** `n.toString()` for a natural number, in decimal without leading zeros. */
  function NatToString(n: nat): (r: string)
    ensures |r| >= 1
    ensures forall i :: 0 <= i < |r| ==> IsDigit(r[i])
    ensures (r[0] == '0') <==> n == 0
    decreases n
  {
    if n < 10 then [DigitChar(n)]
    else NatToString(n / 10) + [DigitChar(n % 10)]
  }

  lemma {:induction false} NatToStringLength(n: nat)
    ensures n < 10 ==> |NatToString(n)| == 1
    ensures 10 <= n < 100 ==> |NatToString(n)| == 2
  {
  }

  /** A character outside the Basic Multilingual Plane, which JavaScript
      stores as two UTF-16 code units (a surrogate pair). */
  predicate IsAstral(c: char) {
    c as int >= 0x1_0000
  }

  /** Text made only of characters of the Basic Multilingual Plane. */
  predicate IsBmp(s: string) {
    forall i :: 0 <= i < |s| ==> !IsAstral(s[i])
  }

  /** JavaScript's `length` of a string: its number of UTF-16 code units. */
  function Utf16Length(s: string): (r: nat)
    ensures |s| <= r <= 2 * |s|
    decreases |s|
  {
    if s == [] then 0 else (if IsAstral(s[0]) then 2 else 1) + Utf16Length(s[1..])
  }

  /** The JavaScript length agrees with the number of characters exactly
      when every character is in the Basic Multilingual Plane. */
  lemma {:induction false} Utf16LengthIsLengthIffBmp(s: string)
    ensures Utf16Length(s) == |s| <==> IsBmp(s)
    decreases |s|
  {
    if s != [] {
      Utf16LengthIsLengthIffBmp(s[1..]);
      assert IsBmp(s) <==> !IsAstral(s[0]) && IsBmp(s[1..]) by {
        assert forall i :: 0 < i < |s| ==> s[i] == s[1..][i - 1];
      }
    }
  }

  /** The JavaScript length of a concatenation is the sum of the lengths. */
  lemma {:induction false} Utf16LengthAppend(a: string, b: string)
    ensures Utf16Length(a + b) == Utf16Length(a) + Utf16Length(b)
    decreases |a|
  {
    if a != [] {
      Utf16LengthAppend(a[1..], b);
      assert (a + b)[1..] == a[1..] + b;
    } else {
      assert a + b == b;
    }
  }
}
