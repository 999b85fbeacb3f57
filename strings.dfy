/** Text operations of the JavaScript runtime that the worker relies on:
    `String.prototype.trim`, `startsWith`, `split` with a one-character
    separator, `replace` with a string pattern, and the `\s` class of regular
    expressions. Strings are sequences of characters. */
module Strings {

  /** The characters `trim()` removes and `\s` matches: the ECMAScript
      WhiteSpace and LineTerminator code points. */
  predicate IsWhitespace(c: char) {
    var n := c as int;
    n == 0x09 || n == 0x0A || n == 0x0B || n == 0x0C || n == 0x0D || n == 0x20 ||
    n == 0xA0 || n == 0x1680 || (0x2000 <= n <= 0x200A) || n == 0x2028 || n == 0x2029 ||
    n == 0x202F || n == 0x205F || n == 0x3000 || n == 0xFEFF
  }

  predicate NoWhitespace(s: string) {
    forall i :: 0 <= i < |s| ==> !IsWhitespace(s[i])
  }

  /** Drops the leading whitespace. */
  function TrimStart(s: string): (r: string)
    ensures |r| <= |s| && r == s[|s| - |r|..]
    ensures forall i :: 0 <= i < |s| - |r| ==> IsWhitespace(s[i])
    ensures r == [] || !IsWhitespace(r[0])
  {
    if |s| > 0 && IsWhitespace(s[0]) then TrimStart(s[1..]) else s
  }

  /** Drops the trailing whitespace. */
  function TrimEnd(s: string): (r: string)
    ensures |r| <= |s| && r == s[..|r|]
    ensures forall i :: |r| <= i < |s| ==> IsWhitespace(s[i])
    ensures r == [] || !IsWhitespace(r[|r| - 1])
  {
    if |s| > 0 && IsWhitespace(s[|s| - 1]) then TrimEnd(s[..|s| - 1]) else s
  }

  /** `s.trim()`: the longest infix of `s` that neither starts nor ends with
      whitespace, obtained by dropping only whitespace. */
  function Trim(s: string): (r: string)
    ensures |r| <= |s|
    ensures r == [] || (!IsWhitespace(r[0]) && !IsWhitespace(r[|r| - 1]))
    ensures exists i, j :: WhitespaceAround(s, i, j) && r == s[i..j]
  {
    var t := TrimStart(s);
    var r := TrimEnd(t);
    TrimWitness(s, t, r);
    r
  }

  lemma TrimWitness(s: string, t: string, r: string)
    requires |t| <= |s| && t == s[|s| - |t|..]
    requires forall k :: 0 <= k < |s| - |t| ==> IsWhitespace(s[k])
    requires |r| <= |t| && r == t[..|r|]
    requires forall k :: |r| <= k < |t| ==> IsWhitespace(t[k])
    ensures WhitespaceAround(s, |s| - |t|, |s| - |t| + |r|)
    ensures r == s[|s| - |t|..|s| - |t| + |r|]
  {
    var i := |s| - |t|;
    forall k | i + |r| <= k < |s| ensures IsWhitespace(s[k]) {
      assert s[k] == t[k - i];
    }
    SliceOfSuffix(s, i, |r|);
  }

  lemma SliceOfSuffix<T>(s: seq<T>, i: nat, n: nat)
    requires i + n <= |s|
    ensures s[i..][..n] == s[i..i + n]
  {
  }

  /** `s[i..j]` is what remains of `s` after dropping only whitespace on
      either side. */
  predicate WhitespaceAround(s: string, i: int, j: int) {
    0 <= i <= j <= |s| &&
    (forall k :: 0 <= k < i ==> IsWhitespace(s[k])) &&
    (forall k :: j <= k < |s| ==> IsWhitespace(s[k]))
  }

  /** A string that neither starts nor ends with whitespace is its own trim. */
  lemma TrimOfTrimmed(s: string)
    requires s == [] || (!IsWhitespace(s[0]) && !IsWhitespace(s[|s| - 1]))
    ensures Trim(s) == s
  {
    assert TrimStart(s) == s;
  }

  /** Trimming twice is trimming once. */
  lemma TrimIdempotent(s: string)
    ensures Trim(Trim(s)) == Trim(s)
  {
    TrimOfTrimmed(Trim(s));
  }

  /** `s.startsWith(p)`. */
  predicate StartsWith(s: string, p: string) {
    |p| <= |s| && s[..|p|] == p
  }

  /** Position of the first occurrence of `c`, if any. */
  function IndexOf(s: string, c: char): (r: int)
    ensures -1 <= r < |s|
    ensures r == -1 <==> c !in s
    ensures r >= 0 ==> s[r] == c && c !in s[..r]
  {
    if |s| == 0 then -1
    else if s[0] == c then 0
    else
      var k := IndexOf(s[1..], c);
      if k == -1 then -1 else k + 1
  }

  /** The pieces glued back with the separator in between. */
  function Join(parts: seq<string>, sep: char): string
    requires |parts| >= 1
  {
    if |parts| == 1 then parts[0] else parts[0] + [sep] + Join(parts[1..], sep)
  }

  /** `s.split(sep)` for a one-character separator: the maximal pieces free
      of the separator, in order; there is always at least one piece. */
  function Split(s: string, sep: char): (parts: seq<string>)
    ensures |parts| >= 1
    ensures forall i :: 0 <= i < |parts| ==> sep !in parts[i]
    ensures Join(parts, sep) == s
    decreases |s|
  {
    var k := IndexOf(s, sep);
    if k == -1 then [s]
    else
      var rest := Split(s[k + 1..], sep);
      var parts := [s[..k]] + rest;
      assert parts[1..] == rest;
      assert Join(parts, sep) == s[..k] + [sep] + Join(rest, sep);
      assert s == s[..k] + [sep] + s[k + 1..];
      parts
  }

  /** Splitting a join of separator-free pieces gives the pieces back. */
  lemma {:induction false} SplitJoin(parts: seq<string>, sep: char)
    requires |parts| >= 1
    requires forall i :: 0 <= i < |parts| ==> sep !in parts[i]
    ensures Split(Join(parts, sep), sep) == parts
  {
    var s := Join(parts, sep);
    if |parts| == 1 {
      assert IndexOf(s, sep) == -1;
    } else {
      var p := parts[0];
      var tail := Join(parts[1..], sep);
      assert s == p + [sep] + tail;
      FirstIndexAfterFreePrefix(p, sep, tail);
      assert s[|p| + 1..] == tail;
      assert s[..|p|] == p;
      SplitJoin(parts[1..], sep);
    }
  }

  lemma FirstIndexAfterFreePrefix(p: string, c: char, tail: string)
    requires c !in p
    ensures IndexOf(p + [c] + tail, c) == |p|
  {
    var s := p + [c] + tail;
    assert s[|p|] == c;
    assert forall i :: 0 <= i < |p| ==> s[i] == p[i];
    assert forall k :: |p| < k <= |s| ==> s[..k][|p|] == c;
  }

  /** `s.split(sep)[0]`: the text before the first separator, or all of it. */
  function FirstField(s: string, sep: char): (r: string)
    ensures sep !in r
    ensures r == s || (|r| < |s| && s[..|r| + 1] == r + [sep])
  {
    var parts := Split(s, sep);
    if |parts| == 1 then parts[0]
    else
      assert Join(parts, sep) == parts[0] + [sep] + Join(parts[1..], sep);
      parts[0]
  }

  /** The first field of `a + sep + b` is `a` whenever `a` is separator-free. */
  lemma FirstFieldOfJoin(a: string, sep: char, b: string)
    requires sep !in a
    ensures FirstField(a + [sep] + b, sep) == a
  {
    FirstIndexAfterFreePrefix(a, sep, b);
    assert (a + [sep] + b)[..|a|] == a;
  }

  /** Whether `p` occurs in `s` starting at position `i`. */
  predicate OccursAt(s: string, p: string, i: nat) {
    i + |p| <= |s| && s[i..i + |p|] == p
  }

  /** `s.replace(p, q)` with a string pattern: only the FIRST occurrence of a
      non-empty `p` is replaced; without one, `s` is returned unchanged.
      `q` is inserted literally: the `$` patterns JavaScript expands in a
      replacement string are not interpreted (every use here replaces with
      the empty string). */
  function ReplaceFirst(s: string, p: string, q: string): (r: string)
    requires |p| > 0
    decreases |s|
  {
    if |s| < |p| then s
    else if s[..|p|] == p then q + s[|p|..]
    else [s[0]] + ReplaceFirst(s[1..], p, q)
  }

  /** Replacing a pattern that the text starts with removes that prefix only. */
  lemma ReplacePrefix(p: string, q: string, rest: string)
    requires |p| > 0
    ensures ReplaceFirst(p + rest, p, q) == q + rest
  {
    assert (p + rest)[..|p|] == p;
    assert (p + rest)[|p|..] == rest;
  }

  /** Only the first occurrence is replaced; the text on either side of it
      is kept. */
  lemma {:induction false} ReplaceFirstOccurrence(s: string, p: string, q: string, i: nat)
    requires |p| > 0 && OccursAt(s, p, i)
    requires forall k: nat :: k < i ==> !OccursAt(s, p, k)
    ensures ReplaceFirst(s, p, q) == s[..i] + q + s[i + |p|..]
    decreases i
  {
    if i == 0 {
      assert s[..|p|] == p;
    } else {
      assert !OccursAt(s, p, 0);
      ShiftedOccurrences(s, p, i);
      ReplaceFirstOccurrence(s[1..], p, q, i - 1);
      ReplaceFirstStep(s, q, |p|, i, ReplaceFirst(s[1..], p, q));
    }
  }

  /** Dropping the first character moves every occurrence one place left. */
  lemma ShiftedOccurrences(s: string, p: string, i: nat)
    requires 1 <= i && OccursAt(s, p, i)
    requires forall k: nat :: k < i ==> !OccursAt(s, p, k)
    ensures OccursAt(s[1..], p, i - 1)
    ensures forall k: nat :: k < i - 1 ==> !OccursAt(s[1..], p, k)
  {
    OccursAtShift(s, p, i - 1);
    forall k: nat | k < i - 1 ensures !OccursAt(s[1..], p, k) {
      OccursAtShift(s, p, k);
    }
  }

  /** Putting back the first character in front of the replaced remainder
      rebuilds the text around the occurrence. */
  lemma ReplaceFirstStep(s: string, q: string, n: nat, i: nat, r: string)
    requires 1 <= i && i + n <= |s|
    requires r == s[1..][..i - 1] + q + s[1..][i - 1 + n..]
    ensures [s[0]] + r == s[..i] + q + s[i + n..]
  {
    assert s[1..][..i - 1] == s[1..i] && s[1..][i - 1 + n..] == s[i + n..];
    assert [s[0]] + s[1..i] == s[..i];
  }

  lemma OccursAtShift(s: string, p: string, k: nat)
    requires |s| >= 1
    ensures OccursAt(s, p, k + 1) <==> OccursAt(s[1..], p, k)
  {
    if k + 1 + |p| <= |s| {
      assert s[1..][k..k + |p|] == s[k + 1..k + 1 + |p|];
    }
  }

  /** Text without an occurrence of the pattern is left unchanged. */
  lemma {:induction false} ReplaceAbsent(s: string, p: string, q: string)
    requires |p| > 0
    requires forall i: nat :: !OccursAt(s, p, i)
    ensures ReplaceFirst(s, p, q) == s
    decreases |s|
  {
    if |s| >= |p| {
      assert !OccursAt(s, p, 0);
      forall i: nat ensures !OccursAt(s[1..], p, i) {
        assert !OccursAt(s, p, i + 1);
        if i + |p| <= |s| - 1 {
          assert s[i + 1..i + 1 + |p|] == s[1..][i..i + |p|];
        }
      }
      ReplaceAbsent(s[1..], p, q);
      assert s == [s[0]] + s[1..];
    }
  }
}
