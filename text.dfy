/**
 * The small part of JavaScript's string library that the parser relies on:
 * character classes, `toLowerCase` on ASCII, `trim`, `split` on one
 * character, `join`, `startsWith`, `includes` and decimal digits.
 */
module Text {

  predicate IsDigit(c: char) { '0' <= c <= '9' }

  predicate IsLetter(c: char) { 'A' <= c <= 'Z' || 'a' <= c <= 'z' }

  /** JavaScript white space and line terminators: what `trim` removes and what `\s` matches. */
  predicate IsSpace(c: char) {
    || c == ' ' || c == '\t' || c == '\n' || c == '\r' || c == '\U{000B}' || c == '\U{000C}'
    || c == '\U{00A0}' || c == '\U{1680}' || ('\U{2000}' <= c <= '\U{200A}')
    || c == '\U{2028}' || c == '\U{2029}' || c == '\U{202F}' || c == '\U{205F}'
    || c == '\U{3000}' || c == '\U{FEFF}'
  }

  predicate AllDigits(s: string) { forall i :: 0 <= i < |s| ==> IsDigit(s[i]) }

  predicate AllLetters(s: string) { forall i :: 0 <= i < |s| ==> IsLetter(s[i]) }

  function ToLower(c: char): (r: char)
    ensures IsLetter(c) <==> IsLetter(r)
    ensures IsDigit(c) <==> IsDigit(r)
    ensures !('A' <= r <= 'Z')
    ensures 'A' <= c <= 'Z' ==> r as int == c as int + 32
    ensures !('A' <= c <= 'Z') ==> r == c
  {
    if 'A' <= c <= 'Z' then (c as int + 32) as char else c
  }

  /** `toLowerCase`, restricted to ASCII letters. */
  function Lower(s: string): (r: string)
    ensures |r| == |s|
    ensures forall i :: 0 <= i < |s| ==> r[i] == ToLower(s[i])
  {
    if s == [] then [] else [ToLower(s[0])] + Lower(s[1..])
  }

  /** Number of white-space characters in `s` from position `p` on. */
  function SpaceRun(s: string, p: nat): (n: nat)
    requires p <= |s|
    ensures p + n <= |s|
    ensures forall j :: p <= j < p + n ==> IsSpace(s[j])
    ensures p + n < |s| ==> !IsSpace(s[p + n])
    decreases |s| - p
  {
    if p < |s| && IsSpace(s[p]) then 1 + SpaceRun(s, p + 1) else 0
  }

  /** Number of white-space characters at the back of `s`. */
  function TrailingSpaceRun(s: string): (n: nat)
    ensures n <= |s|
    ensures forall j :: |s| - n <= j < |s| ==> IsSpace(s[j])
    ensures n < |s| ==> !IsSpace(s[|s| - 1 - n])
  {
    if s != [] && IsSpace(s[|s| - 1]) then 1 + TrailingSpaceRun(s[..|s| - 1]) else 0
  }

  /** Number of ASCII digits in `s` from position `p` on. */
  function DigitRun(s: string, p: nat): (n: nat)
    requires p <= |s|
    ensures p + n <= |s|
    ensures forall j :: p <= j < p + n ==> IsDigit(s[j])
    ensures p + n < |s| ==> !IsDigit(s[p + n])
    decreases |s| - p
  {
    if p < |s| && IsDigit(s[p]) then 1 + DigitRun(s, p + 1) else 0
  }

  /** The first `n` characters of a run of at least `n` digits are digits. */
  lemma DigitSlice(s: string, p: nat, n: nat)
    requires p + n <= |s| && DigitRun(s, p) >= n
    ensures AllDigits(s[p..p + n])
  {
    var run := s[p..p + n];
    forall i | 0 <= i < n ensures IsDigit(run[i]) {
      assert run[i] == s[p + i];
    }
  }

  /** `SpaceRun` is `n` when `n` spaces follow `p` and then a non-space or the end. */
  lemma {:induction false} SpaceRunIs(s: string, p: nat, n: nat)
    requires p + n <= |s|
    requires forall j :: p <= j < p + n ==> IsSpace(s[j])
    requires p + n < |s| ==> !IsSpace(s[p + n])
    ensures SpaceRun(s, p) == n
    decreases n
  {
    if n > 0 {
      SpaceRunIs(s, p + 1, n - 1);
    }
  }

  /** `DigitRun` is `n` when `n` digits follow `p` and then a non-digit or the end. */
  lemma {:induction false} DigitRunIs(s: string, p: nat, n: nat)
    requires p + n <= |s|
    requires forall j :: p <= j < p + n ==> IsDigit(s[j])
    requires p + n < |s| ==> !IsDigit(s[p + n])
    ensures DigitRun(s, p) == n
    decreases n
  {
    if n > 0 {
      DigitRunIs(s, p + 1, n - 1);
    }
  }

  /** `DigitRun` is at least `n` when `n` digits follow `p`. */
  lemma {:induction false} DigitRunAtLeast(s: string, p: nat, n: nat)
    requires p + n <= |s|
    requires forall j :: p <= j < p + n ==> IsDigit(s[j])
    ensures DigitRun(s, p) >= n
    decreases n
  {
    if n > 0 {
      DigitRunAtLeast(s, p + 1, n - 1);
    }
  }

  /** `trim`: drop white space at both ends. */
  function Trim(s: string): (r: string)
    ensures r == [] || (!IsSpace(r[0]) && !IsSpace(r[|r| - 1]))
    ensures r == [] <==> forall j :: 0 <= j < |s| ==> IsSpace(s[j])
    ensures |r| <= |s|
  {
    var a := SpaceRun(s, 0);
    if a == |s| then []
    else
      var b := TrailingSpaceRun(s[a..]);
      s[a..][..|s| - a - b]
  }

  /** What `trim` keeps is one piece of `s`, with only white space before and after it. */
  lemma TrimSlice(s: string)
    ensures Trim(s) == [] || exists a, b :: 0 <= a <= b <= |s| && Trim(s) == s[a..b]
                                    && (forall j :: 0 <= j < a ==> IsSpace(s[j]))
                                    && (forall j :: b <= j < |s| ==> IsSpace(s[j]))
  {
    var a := SpaceRun(s, 0);
    if a < |s| {
      var b := TrailingSpaceRun(s[a..]);
      assert Trim(s) == s[a..][..|s| - a - b] == s[a..|s| - b];
      assert forall j :: |s| - b <= j < |s| ==> s[j] == s[a..][j - a];
      assert forall j :: |s| - b <= j < |s| ==> IsSpace(s[j]);
    }
  }

  lemma {:induction false} TrimIdempotent(s: string)
    ensures Trim(Trim(s)) == Trim(s)
  {
    var t := Trim(s);
    if t != [] {
      assert SpaceRun(t, 0) == 0;
      assert TrailingSpaceRun(t) == 0;
      assert t[0..][..|t|] == t;
    }
  }

  /** `trim` leaves text alone that neither starts nor ends with white space. */
  lemma TrimUnchanged(s: string)
    requires s != [] && !IsSpace(s[0]) && !IsSpace(s[|s| - 1])
    ensures Trim(s) == s
  {
    assert SpaceRun(s, 0) == 0;
    assert TrailingSpaceRun(s) == 0;
    assert s[0..][..|s|] == s;
  }

  predicate StartsWith(s: string, prefix: string) {
    |prefix| <= |s| && s[..|prefix|] == prefix
  }

  /** `includes`: `key` occurs somewhere in `s`. */
  predicate Contains(s: string, key: string)
    decreases |s|
  {
    StartsWith(s, key) || (s != [] && Contains(s[1..], key))
  }

  /** `key` occurs in `s` starting at position `i`. */
  predicate OccursAt(s: string, key: string, i: int) {
    0 <= i <= |s| - |key| && s[i..i + |key|] == key
  }

  /** `Contains` agrees with the positional definition of a substring, in both directions. */
  lemma {:induction false} ContainsIffOccurs(s: string, key: string)
    ensures Contains(s, key) <==> exists i :: OccursAt(s, key, i)
    decreases |s|
  {
    if StartsWith(s, key) {
      assert OccursAt(s, key, 0);
    } else if s == [] {
    } else {
      ContainsIffOccurs(s[1..], key);
      if Contains(s[1..], key) {
        var i :| OccursAt(s[1..], key, i);
        assert OccursAt(s, key, i + 1);
      }
      if i :| OccursAt(s, key, i) {
        assert i != 0;
        assert OccursAt(s[1..], key, i - 1);
      }
    }
  }

  /** A text is at least as long as anything it contains. */
  lemma {:induction false} ContainsLength(s: string, key: string)
    requires Contains(s, key)
    ensures |key| <= |s|
    decreases |s|
  {
    if !StartsWith(s, key) {
      ContainsLength(s[1..], key);
    }
  }

  /** Index of the first `c` in `s`. */
  function IndexOf(s: string, c: char): (i: nat)
    requires c in s
    ensures i < |s| && s[i] == c && c !in s[..i]
  {
    if s[0] == c then 0 else 1 + IndexOf(s[1..], c)
  }

  /** `split` on a single separator character: the pieces between separators, empty ones included. */
  function Split(s: string, sep: char): (r: seq<string>)
    ensures |r| >= 1
    ensures forall k :: 0 <= k < |r| ==> sep !in r[k]
    decreases |s|
  {
    if sep !in s then [s]
    else
      var i := IndexOf(s, sep);
      [s[..i]] + Split(s[i + 1..], sep)
  }

  /** `join`: the pieces with `sep` between consecutive ones. */
  function Join(parts: seq<string>, sep: string): string
  {
    if |parts| == 0 then ""
    else if |parts| == 1 then parts[0]
    else parts[0] + sep + Join(parts[1..], sep)
  }

  /** Splitting and joining again gives back the original text. */
  lemma {:induction false} JoinSplit(s: string, sep: char)
    ensures Join(Split(s, sep), [sep]) == s
    decreases |s|
  {
    if sep in s {
      var i := IndexOf(s, sep);
      var rest := Split(s[i + 1..], sep);
      var parts := [s[..i]] + rest;
      assert Split(s, sep) == parts;
      assert parts[0] == s[..i] && parts[1..] == rest && |parts| >= 2;
      assert Join(parts, [sep]) == s[..i] + [sep] + Join(rest, [sep]);
      JoinSplit(s[i + 1..], sep);
      assert s == s[..i] + [sep] + s[i + 1..];
    }
  }

  /** Joining pieces free of the separator and splitting again gives back the pieces. */
  lemma {:induction false} SplitJoin(parts: seq<string>, sep: char)
    requires |parts| >= 1
    requires forall k :: 0 <= k < |parts| ==> sep !in parts[k]
    ensures Split(Join(parts, [sep]), sep) == parts
  {
    if |parts| > 1 {
      var rest := Join(parts[1..], [sep]);
      var s := parts[0] + [sep] + rest;
      assert s[|parts[0]|] == sep;
      assert s[..|parts[0]|] == parts[0];
      assert sep !in s[..|parts[0]|];
      assert IndexOf(s, sep) == |parts[0]|;
      assert s[|parts[0]| + 1..] == rest;
      SplitJoin(parts[1..], sep);
    }
  }

  function DigitValue(c: char): (d: nat)
    requires IsDigit(c)
    ensures d < 10
  {
    c as int - '0' as int
  }

  function Digit(d: nat): (c: char)
    requires d < 10
    ensures IsDigit(c) && DigitValue(c) == d
  {
    ('0' as int + d) as char
  }

  /** The number written by a string of decimal digits (`Number` on a digit string). */
  function DecimalValue(s: string): nat
    requires AllDigits(s)
  {
    if s == [] then 0 else DecimalValue(s[..|s| - 1]) * 10 + DigitValue(s[|s| - 1])
  }

  /** The shortest decimal numeral of `n`; reading it back gives `n`. */
  function DecimalString(n: nat): (r: string)
    ensures |r| >= 1 && AllDigits(r)
    ensures DecimalValue(r) == n
    ensures |r| > 1 ==> r[0] != '0'
    ensures n < 10 <==> |r| == 1
  {
    if n < 10 then [Digit(n)]
    else
      var r := DecimalString(n / 10) + [Digit(n % 10)];
      assert r[..|r| - 1] == DecimalString(n / 10);
      r
  }
}
