/** ASCII string helpers shared by the back end (Python `str`) and the front end (JavaScript `String`).
    Only the ASCII behaviour of `lower()`, `strip()`/`trim()`, `isalpha()` and `isdigit()` is modelled. */
module Text {

  /** The ASCII characters that JavaScript's `trim()` removes; Python's `strip()` removes these and
      also the separators `\x1c` to `\x1f`, which are not modelled. */
  predicate IsSpace(c: char) {
    c == ' ' || c == '\t' || c == '\n' || c == '\r' || c == '\U{B}' || c == '\U{C}'
  }

  predicate IsAsciiLetter(c: char) {
    ('a' <= c <= 'z') || ('A' <= c <= 'Z')
  }

  predicate IsAsciiDigit(c: char) {
    '0' <= c <= '9'
  }

  predicate AllSpace(s: string) {
    forall i :: 0 <= i < |s| ==> IsSpace(s[i])
  }

  /** The string without its leading spaces. */
  function TrimStart(s: string): string {
    if s != [] && IsSpace(s[0]) then TrimStart(s[1..]) else s
  }

  /** The string without its trailing spaces. */
  function TrimEnd(s: string): string {
    if s != [] && IsSpace(s[|s| - 1]) then TrimEnd(s[..|s| - 1]) else s
  }

  /** `TrimStart` removes a prefix of spaces and stops at the first other character. */
  lemma {:induction false} TrimStartSpec(s: string)
    ensures var r := TrimStart(s);
            && |r| <= |s| && r == s[|s| - |r|..]
            && (r == [] || !IsSpace(r[0]))
            && AllSpace(s[..|s| - |r|])
  {
    if s != [] && IsSpace(s[0]) {
      TrimStartSpec(s[1..]);
      var r := TrimStart(s);
      assert s[..|s| - |r|] == [s[0]] + s[1..][..|s| - 1 - |r|];
    }
  }

  /** `TrimEnd` removes a suffix of spaces and stops at the last other character. */
  lemma {:induction false} TrimEndSpec(s: string)
    ensures var r := TrimEnd(s);
            && |r| <= |s| && r == s[..|r|]
            && (r == [] || !IsSpace(r[|r| - 1]))
            && AllSpace(s[|r|..])
  {
    if s != [] && IsSpace(s[|s| - 1]) {
      TrimEndSpec(s[..|s| - 1]);
      var r := TrimEnd(s);
      assert s[|r|..] == s[..|s| - 1][|r|..] + [s[|s| - 1]];
    }
  }

  /** `s.strip()` in Python, `s.trim()` in JavaScript. */
  function Trim(s: string): string {
    var t := TrimStart(s);
    if t == [] then t else TrimEnd(t)
  }

  /** What stripping leaves: a part of the string with no space at either end, empty exactly when
      the string is all spaces. */
  lemma TrimSpec(s: string)
    ensures |Trim(s)| <= |s|
    ensures var r := Trim(s); r == [] || (!IsSpace(r[0]) && !IsSpace(r[|r| - 1]))
    ensures Trim(s) == [] <==> AllSpace(s)
  {
    var t := TrimStart(s);
    TrimStartSpec(s);
    var n := |s| - |t|;
    if t == [] {
      assert s[..n] == s;
    } else {
      var u := TrimEnd(t);
      TrimEndSpec(t);
      assert u != [];
      assert u[0] == t[0];
      assert !AllSpace(s) by {
        assert s[n] == t[0];
      }
    }
  }

  function LowerChar(c: char): (r: char)
    ensures IsAsciiLetter(c) ==> 'a' <= r <= 'z'
    ensures !('A' <= c <= 'Z') ==> r == c
  {
    if 'A' <= c <= 'Z' then (c as int - 'A' as int + 'a' as int) as char else c
  }

  /** `s.lower()` for ASCII text. */
  function Lower(s: string): (r: string)
    ensures |r| == |s|
    ensures forall i :: 0 <= i < |s| ==> r[i] == LowerChar(s[i])
  {
    if s == [] then [] else [LowerChar(s[0])] + Lower(s[1..])
  }

  /** `s.replace(c, '')`: every occurrence of `c` removed, everything else kept in order. */
  function Remove(s: string, c: char): (r: string)
    ensures c !in r
    ensures |r| <= |s|
    ensures c !in s ==> r == s
  {
    if s == [] then []
    else if s[0] == c then Remove(s[1..], c)
    else [s[0]] + Remove(s[1..], c)
  }

  /** Lower-casing works character by character, so it distributes over concatenation. */
  lemma {:induction false} LowerAppend(a: string, b: string)
    ensures Lower(a + b) == Lower(a) + Lower(b)
    decreases |a|
  {
    if a == [] {
      assert a + b == b;
    } else {
      assert (a + b)[0] == a[0] && (a + b)[1..] == a[1..] + b;
      LowerAppend(a[1..], b);
    }
  }

  /** A lower-cased string holds no ASCII capital. */
  lemma LowerHasNoCapital(s: string)
    ensures forall x :: x in Lower(s) ==> !('A' <= x <= 'Z')
  {
    forall x | x in Lower(s) ensures !('A' <= x <= 'Z') {
      var i :| 0 <= i < |Lower(s)| && Lower(s)[i] == x;
      assert x == LowerChar(s[i]);
    }
  }

  /** Removing from a concatenation is removing from each part: `replace` keeps the order. */
  lemma {:induction false} RemoveAppend(a: string, b: string, c: char)
    ensures Remove(a + b, c) == Remove(a, c) + Remove(b, c)
    decreases |a|
  {
    if a == [] {
      assert a + b == b;
    } else {
      assert (a + b)[0] == a[0] && (a + b)[1..] == a[1..] + b;
      RemoveAppend(a[1..], b, c);
    }
  }

  /** On a single character, `replace` drops it exactly when it is `c`. Together with `RemoveAppend`
      this determines `Remove` on every string. */
  lemma RemoveOne(x: char, c: char)
    ensures Remove([x], c) == if x == c then [] else [x]
  {
    assert [x][1..] == [];
  }

  /** The characters left are exactly those of `s` other than `c`, each as often as in `s`. */
  lemma {:induction false} RemoveCounts(s: string, c: char)
    ensures multiset(Remove(s, c)) == multiset(s)[c := 0]
    ensures forall x :: x in Remove(s, c) <==> x in s && x != c
    decreases |s|
  {
    if s != [] {
      RemoveCounts(s[1..], c);
      assert s == [s[0]] + s[1..];
    }
  }

  predicate StartsWith(s: string, prefix: string) {
    |prefix| <= |s| && s[..|prefix|] == prefix
  }

  predicate EndsWith(s: string, suffix: string) {
    |suffix| <= |s| && s[|s| - |suffix|..] == suffix
  }

  /** `s.split(sep)` for a one-character separator, as in both Python and JavaScript:
      the pieces between the separators, empty pieces included. */
  function Split(s: string, sep: char): (r: seq<string>)
    ensures |r| >= 1
    ensures forall k :: 0 <= k < |r| ==> sep !in r[k]
    ensures |r| == 1 <==> sep !in s
  {
    if s == [] then [""]
    else
      var rest := Split(s[1..], sep);
      if s[0] == sep then [""] + rest
      else [[s[0]] + rest[0]] + rest[1..]
  }

  /** `sep.join(parts)` in Python, `parts.join(sep)` in JavaScript. */
  function Join(parts: seq<string>, sep: char): (r: string)
    ensures |parts| == 0 ==> r == ""
    ensures |parts| == 1 ==> r == parts[0]
  {
    if |parts| == 0 then ""
    else if |parts| == 1 then parts[0]
    else parts[0] + [sep] + Join(parts[1..], sep)
  }

  /** Splitting and joining again with the same separator gives back the original string. */
  lemma {:induction false} JoinSplit(s: string, sep: char)
    ensures Join(Split(s, sep), sep) == s
  {
    if s != [] {
      var rest := Split(s[1..], sep);
      JoinSplit(s[1..], sep);
      if s[0] == sep {
        assert Split(s, sep) == [""] + rest;
        assert ([""] + rest)[1..] == rest;
      } else {
        var parts := Split(s, sep);
        assert parts == [[s[0]] + rest[0]] + rest[1..];
        if |rest| == 1 {
          assert Join(parts, sep) == [s[0]] + rest[0];
        } else {
          assert parts[1..] == rest[1..];
          assert Join(rest, sep) == rest[0] + [sep] + Join(rest[1..], sep);
        }
      }
    }
  }

  /** A string that does not start with the separator splits into a non-empty first piece. */
  lemma {:induction false} SplitHeadNonEmpty(s: string, sep: char)
    requires s != [] && s[0] != sep
    ensures Split(s, sep)[0] != ""
  {
  }

  function DigitChar(d: nat): (c: char)
    requires d < 10
    ensures IsAsciiDigit(c)
  {
    "0123456789"[d]
  }

  /** `str(n)` / the f-string rendering of a non-negative integer. */
  function NatToString(n: nat): (r: string)
    ensures r != []
    ensures forall i :: 0 <= i < |r| ==> IsAsciiDigit(r[i])
    ensures (n < 10) <==> |r| == 1
  {
    if n < 10 then [DigitChar(n)] else NatToString(n / 10) + [DigitChar(n % 10)]
  }

  lemma DigitCharInjective(a: nat, b: nat)
    requires a < 10 && b < 10 && DigitChar(a) == DigitChar(b)
    ensures a == b
  {
  }

  /** Distinct numbers render as distinct strings. */
  lemma {:induction false} NatToStringInjective(a: nat, b: nat)
    requires NatToString(a) == NatToString(b)
    ensures a == b
  {
    var s := NatToString(a);
    if a < 10 {
      assert b < 10;
      DigitCharInjective(a, b);
    } else {
      assert b >= 10;
      assert s[|s| - 1] == DigitChar(a % 10) == DigitChar(b % 10);
      DigitCharInjective(a % 10, b % 10);
      assert NatToString(a / 10) == s[..|s| - 1] == NatToString(b / 10);
      NatToStringInjective(a / 10, b / 10);
    }
  }
}
