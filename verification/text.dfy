/** Option, as used by every extractor for "no match" / "absent field". */
module Wrappers {
  datatype Option<+T> = None | Some(value: T)
}

/**
 * Character classes, case mapping and the string operations the statement
 * parser relies on: substring tests, `str.strip()`, the whitespace collapse
 * `re.sub(r'\s+', ' ', ...)`, and the "maximal run" scanning that every
 * greedy `\s+`, `\d+` and `[^/]+` in the parser performs.
 */
module Text {

  /** Python's `str.isspace()`, which is also what the regex class `\s` matches in a str pattern. */
  predicate IsSpace(c: char) {
    c == ' ' || ('\t' <= c <= '\r') || ('\U{1C}' <= c <= '\U{1F}')
    || c == '\U{85}' || c == '\U{A0}' || c == '\U{1680}'
    || ('\U{2000}' <= c <= '\U{200A}') || c == '\U{2028}' || c == '\U{2029}'
    || c == '\U{202F}' || c == '\U{205F}' || c == '\U{3000}'
  }

  /** The regex class `\d`, restricted to ASCII digits. */
  predicate IsDigit(c: char) { '0' <= c <= '9' }

  /** The regex class `[A-Z]`. */
  predicate IsUpper(c: char) { 'A' <= c <= 'Z' }

  predicate IsLower(c: char) { 'a' <= c <= 'z' }

  /** The regex class `\w` (ASCII letters, digits and underscore). */
  predicate IsWordChar(c: char) { IsDigit(c) || IsUpper(c) || IsLower(c) || c == '_' }

  function LowerChar(c: char): char {
    if IsUpper(c) then (c as int + 32) as char else c
  }

  function UpperChar(c: char): char {
    if IsLower(c) then (c as int - 32) as char else c
  }

  /** `str.lower()` on ASCII letters. */
  function Lower(s: string): string {
    seq(|s|, k requires 0 <= k < |s| => LowerChar(s[k]))
  }

  /** `str.upper()` on ASCII letters. */
  function Upper(s: string): string {
    seq(|s|, k requires 0 <= k < |s| => UpperChar(s[k]))
  }

  predicate AllDigits(s: string) {
    forall k :: 0 <= k < |s| ==> IsDigit(s[k])
  }

  predicate AllSpace(s: string) {
    forall k :: 0 <= k < |s| ==> IsSpace(s[k])
  }

  /** The literal `lit` occurs in `s` at position `i` (a case-sensitive regex literal). */
  predicate LitAt(s: string, i: nat, lit: string) {
    i + |lit| <= |s| && s[i..i + |lit|] == lit
  }

  /** A text printed from `i` to `e` that is a concatenation: each part sits at its place, split at `m`. */
  lemma SplitAt(s: string, i: nat, m: nat, e: nat, x: string, y: string)
    requires m == i + |x| && e == m + |y| && e <= |s| && s[i..e] == x + y
    ensures s[i..m] == x && s[m..e] == y
  {
    assert s[i..m] == s[i..e][..|x|];
    assert s[m..e] == s[i..e][|x|..];
  }

  /** The literal `lit`, written in lower case, occurs in `s` at `i` ignoring ASCII case (`re.I`). */
  predicate CiLitAt(s: string, i: nat, lit: string) {
    i + |lit| <= |s| && Lower(s[i..i + |lit|]) == lit
  }

  /** Python's `sub in s`. */
  predicate Contains(s: string, sub: string)
    decreases |s|
  {
    sub <= s || (s != [] && Contains(s[1..], sub))
  }

  /** `any(k in s for k in subs)`. */
  predicate ContainsAny(s: string, subs: seq<string>) {
    exists k :: 0 <= k < |subs| && Contains(s, subs[k])
  }

  lemma {:induction false} ContainsAt(s: string, sub: string, i: nat)
    requires LitAt(s, i, sub)
    ensures Contains(s, sub)
    decreases i
  {
    if i == 0 {
      assert sub <= s;
    } else {
      assert LitAt(s[1..], i - 1, sub) by {
        assert s[1..][i - 1..i - 1 + |sub|] == s[i..i + |sub|];
      }
      ContainsAt(s[1..], sub, i - 1);
    }
  }

  lemma {:induction false} ContainsWitness(s: string, sub: string) returns (i: nat)
    requires Contains(s, sub)
    ensures LitAt(s, i, sub)
    decreases |s|
  {
    if sub <= s {
      i := 0;
    } else {
      var j := ContainsWitness(s[1..], sub);
      assert s[1..][j..j + |sub|] == s[j + 1..j + 1 + |sub|];
      i := j + 1;
    }
  }

  /**
   * The end of the maximal run of characters satisfying `p` that starts at
   * `i`: what a greedy `p+` or `p*` consumes when it starts at `i`.
   */
  function SpanEnd(s: string, i: nat, p: char -> bool): (e: nat)
    requires i <= |s|
    ensures i <= e <= |s|
    ensures forall k :: i <= k < e ==> p(s[k])
    ensures e == |s| || !p(s[e])
    decreases |s| - i
  {
    if i < |s| && p(s[i]) then SpanEnd(s, i + 1, p) else i
  }

  /** A run that is already maximal at both ends is what SpanEnd finds. */
  lemma {:induction false} SpanEndIs(s: string, i: nat, e: nat, p: char -> bool)
    requires i <= e <= |s|
    requires forall k :: i <= k < e ==> p(s[k])
    requires e == |s| || !p(s[e])
    ensures SpanEnd(s, i, p) == e
    decreases e - i
  {
    if i < e {
      SpanEndIs(s, i + 1, e, p);
    }
  }

  /** Greedy `\s+` at `i`: its end, or `i` itself when no whitespace is there. */
  function SpaceEnd(s: string, i: nat): nat
    requires i <= |s|
  {
    SpanEnd(s, i, IsSpace)
  }

  /** A single space before a character that is not whitespace is a whole `\s+` run. */
  lemma OneSpace(s: string, c: nat)
    requires c + 1 < |s| && s[c] == ' ' && !IsSpace(s[c + 1])
    ensures SpaceEnd(s, c) == c + 1
  {
    SpanEndIs(s, c, c + 1, IsSpace);
  }

  /** Greedy `\d+` at `i`. */
  function DigitEnd(s: string, i: nat): nat
    requires i <= |s|
  {
    SpanEnd(s, i, IsDigit)
  }

  predicate IsTrimmed(s: string) {
    s == [] || (!IsSpace(s[0]) && !IsSpace(s[|s| - 1]))
  }

  /** `str.strip()`: the longest slice of `s` that neither starts nor ends with whitespace. */
  function Strip(s: string): (r: string)
    ensures IsTrimmed(r)
    ensures exists a: nat :: a + |r| <= |s| && r == s[a..a + |r|]
                      && AllSpace(s[..a]) && AllSpace(s[a + |r|..])
  {
    var a := SpanEnd(s, 0, IsSpace);
    var b := TrimEndFrom(s, a);
    assert AllSpace(s[..a]);
    assert AllSpace(s[b..]);
    s[a..b]
  }

  /** The end of `s` once the whitespace at its end is removed, never going left of `a`. */
  function TrimEndFrom(s: string, a: nat): (b: nat)
    requires a <= |s|
    requires a == |s| || !IsSpace(s[a])
    ensures a <= b <= |s|
    ensures forall k :: b <= k < |s| ==> IsSpace(s[k])
    ensures b == a || !IsSpace(s[b - 1])
    ensures a < |s| ==> a < b
    decreases |s| - a
  {
    if |s| == a then a
    else if IsSpace(s[|s| - 1]) then
      TrimEndFrom(s[..|s| - 1], a)
    else |s|
  }

  /** A string that neither starts nor ends with whitespace is left alone by `strip()`. */
  lemma StripTrimmed(s: string)
    requires IsTrimmed(s)
    ensures Strip(s) == s
  {
    var a := SpanEnd(s, 0, IsSpace);
    assert a == 0;
    var b := TrimEndFrom(s, a);
    assert b == |s|;
  }

  /** The characters of `s` that are not whitespace, in order. */
  function NonSpace(s: string): string {
    if s == [] then []
    else if IsSpace(s[0]) then NonSpace(s[1..])
    else [s[0]] + NonSpace(s[1..])
  }

  lemma {:induction false} NonSpaceSkip(s: string, e: nat)
    requires e <= |s| && AllSpace(s[..e])
    ensures NonSpace(s) == NonSpace(s[e..])
    decreases e
  {
    if e > 0 {
      assert IsSpace(s[..e][0]);
      assert s[1..][..e - 1] == s[1..e];
      assert s[1..][e - 1..] == s[e..];
      NonSpaceSkip(s[1..], e - 1);
    }
  }

  /** Whitespace occurs only as single spaces. */
  predicate SingleSpaced(r: string) {
    && (forall k :: 0 <= k < |r| && IsSpace(r[k]) ==> r[k] == ' ')
    && (forall k :: 0 <= k < |r| - 1 ==> !IsSpace(r[k]) || !IsSpace(r[k + 1]))
  }

  /**
   * `re.sub(r'\s+', ' ', s)`: every maximal run of whitespace becomes one
   * space. The result keeps every other character in order, holds no
   * whitespace but single spaces, and gains no leading or trailing space.
   */
  function CollapseSpaces(s: string): (r: string)
    ensures |r| <= |s|
    decreases |s|
  {
    if s == [] then []
    else if IsSpace(s[0]) then [' '] + CollapseSpaces(s[SpanEnd(s, 0, IsSpace)..])
    else [s[0]] + CollapseSpaces(s[1..])
  }

  /** What the collapse does, run by run: see `Collapsed`. */
  lemma {:induction false} CollapseSpacesCollapsed(s: string)
    ensures Collapsed(s, CollapseSpaces(s))
    decreases |s|
  {
    if s != [] {
      if IsSpace(s[0]) {
        var e := SpanEnd(s, 0, IsSpace);
        CollapseSpacesCollapsed(s[e..]);
        CollapseRun(s, e, CollapseSpaces(s[e..]));
      } else {
        CollapseSpacesCollapsed(s[1..]);
        CollapseKeep(s, CollapseSpaces(s[1..]));
      }
    }
  }

  /**
   * `r` is `s` with its whitespace collapsed: the same other characters in
   * order, single spaces only, empty exactly when `s` is, and whitespace at
   * either end exactly where `s` has it.
   */
  predicate Collapsed(s: string, r: string) {
    && NonSpace(r) == NonSpace(s)
    && SingleSpaced(r)
    && (s == []) == (r == [])
    && (s != [] ==> (IsSpace(r[0]) <==> IsSpace(s[0])))
    && (s != [] ==> (IsSpace(r[|r| - 1]) <==> IsSpace(s[|s| - 1])))
  }

  /** A leading whitespace run, up to `e`, collapses to one space in front of the rest collapsed. */
  lemma CollapseRun(s: string, e: nat, t: string)
    requires s != [] && IsSpace(s[0]) && e == SpanEnd(s, 0, IsSpace)
    requires Collapsed(s[e..], t)
    ensures Collapsed(s, [' '] + t)
  {
    NonSpaceSkip(s, e);
    ConsSpaced(' ', t);
    assert e < |s| ==> s[e..][0] == s[e] && s[e..][|s[e..]| - 1] == s[|s| - 1];
  }

  /** A leading character that is not whitespace is kept in front of the rest collapsed. */
  lemma CollapseKeep(s: string, t: string)
    requires s != [] && !IsSpace(s[0])
    requires Collapsed(s[1..], t)
    ensures Collapsed(s, [s[0]] + t)
  {
    ConsSpaced(s[0], t);
    assert |s| > 1 ==> s[1..][|s| - 2] == s[|s| - 1];
  }

  /** One character in front of a single-spaced text, where a space may not meet another. */
  lemma ConsSpaced(c: char, t: string)
    requires SingleSpaced(t)
    requires IsSpace(c) ==> c == ' ' && (t == [] || !IsSpace(t[0]))
    ensures SingleSpaced([c] + t)
    ensures NonSpace([c] + t) == if IsSpace(c) then NonSpace(t) else [c] + NonSpace(t)
    ensures ([c] + t)[0] == c && |[c] + t| == |t| + 1
    ensures t != [] ==> ([c] + t)[|t|] == t[|t| - 1]
  {
    assert ([c] + t)[1..] == t;
  }

  /** A character that is not whitespace is kept, and the collapse goes on after it. */
  lemma CollapseKept(s: string)
    requires s != [] && !IsSpace(s[0])
    ensures CollapseSpaces(s) == [s[0]] + CollapseSpaces(s[1..])
  {
  }

  /** A leading run of whitespace ending at `e` becomes one space, and the collapse goes on at `e`. */
  lemma CollapseMerged(s: string, e: nat)
    requires s != [] && IsSpace(s[0]) && e <= |s| && SpanEnd(s, 0, IsSpace) == e
    ensures CollapseSpaces(s) == [' '] + CollapseSpaces(s[e..])
  {
  }

  /** The suffix of a single-spaced text is single-spaced. */
  lemma SingleSpacedTail(s: string)
    requires s != [] && SingleSpaced(s)
    ensures SingleSpaced(s[1..])
  {
    assert forall k :: 0 <= k < |s| - 1 ==> s[1..][k] == s[k + 1];
  }

  /** Single-spaced text is already collapsed: no run has more than one character to merge. */
  lemma {:induction false} CollapseFixed(s: string)
    requires SingleSpaced(s)
    ensures CollapseSpaces(s) == s
    decreases |s|
  {
    if s != [] {
      SingleSpacedTail(s);
      CollapseFixed(s[1..]);
      if IsSpace(s[0]) {
        assert s[0] == ' ' && (|s| == 1 || !IsSpace(s[1]));
        SpanEndIs(s, 0, 1, IsSpace);
        CollapseMerged(s, 1);
      } else {
        CollapseKept(s);
      }
      assert [s[0]] + s[1..] == s;
    }
  }

  /** A run made only of whitespace collapses to one space. */
  lemma CollapseAllSpace(s: string)
    requires s != [] && AllSpace(s)
    ensures CollapseSpaces(s) == " "
  {
    SpanEndIs(s, 0, |s|, IsSpace);
    assert s[|s|..] == [];
  }

  /**
   * The collapse works run by run: cut where whitespace does not meet
   * whitespace, the pieces collapse on their own.
   */
  lemma {:induction false} CollapseAppend(a: string, b: string)
    requires a != [] && b != []
    requires !IsSpace(a[|a| - 1]) || !IsSpace(b[0])
    ensures CollapseSpaces(a + b) == CollapseSpaces(a) + CollapseSpaces(b)
    decreases |a|
  {
    if !IsSpace(a[0]) {
      if |a| == 1 {
        AppendKept(a, b);
      } else {
        assert a[1..][|a| - 2] == a[|a| - 1];
        CollapseAppend(a[1..], b);
        AppendKeptStep(a, b);
      }
    } else {
      var e := SpanEnd(a, 0, IsSpace);
      if e == |a| {
        AppendRun(a, b);
      } else {
        assert a[e..][|a| - e - 1] == a[|a| - 1];
        CollapseAppend(a[e..], b);
        AppendRunStep(a, b, e);
      }
    }
  }

  lemma AppendKept(a: string, b: string)
    requires |a| == 1 && !IsSpace(a[0])
    ensures CollapseSpaces(a + b) == CollapseSpaces(a) + CollapseSpaces(b)
  {
    var s := a + b;
    assert s[0] == a[0] && s[1..] == b && a[1..] == [];
    CollapseKept(s);
    CollapseKept(a);
  }

  lemma AppendKeptStep(a: string, b: string)
    requires |a| > 1 && !IsSpace(a[0])
    requires CollapseSpaces(a[1..] + b) == CollapseSpaces(a[1..]) + CollapseSpaces(b)
    ensures CollapseSpaces(a + b) == CollapseSpaces(a) + CollapseSpaces(b)
  {
    var s := a + b;
    assert s[0] == a[0] && s[1..] == a[1..] + b;
    CollapseKept(s);
    CollapseKept(a);
  }

  lemma AppendRun(a: string, b: string)
    requires a != [] && b != [] && AllSpace(a) && !IsSpace(b[0])
    ensures CollapseSpaces(a + b) == CollapseSpaces(a) + CollapseSpaces(b)
  {
    var s := a + b;
    SpanEndIs(s, 0, |a|, IsSpace);
    CollapseMerged(s, |a|);
    assert s[|a|..] == b;
    CollapseAllSpace(a);
  }

  lemma AppendRunStep(a: string, b: string, e: nat)
    requires 0 < e < |a| && IsSpace(a[0]) && SpanEnd(a, 0, IsSpace) == e
    requires CollapseSpaces(a[e..] + b) == CollapseSpaces(a[e..]) + CollapseSpaces(b)
    ensures CollapseSpaces(a + b) == CollapseSpaces(a) + CollapseSpaces(b)
  {
    SpanEndPrefix(a, b, e);
    CollapseMerged(a + b, e);
    CollapseMerged(a, e);
    ConsAppend(' ', CollapseSpaces(a[e..]), CollapseSpaces(b));
  }

  lemma ConsAppend(c: char, x: string, y: string)
    ensures [c] + (x + y) == ([c] + x) + y
  {
  }

  /** A whitespace run that stops inside `a` stops at the same place in `a + b`. */
  lemma SpanEndPrefix(a: string, b: string, e: nat)
    requires e < |a| && SpanEnd(a, 0, IsSpace) == e
    ensures SpanEnd(a + b, 0, IsSpace) == e && (a + b)[e..] == a[e..] + b
  {
    assert forall k :: 0 <= k < e ==> (a + b)[k] == a[k];
    SpanEndIs(a + b, 0, e, IsSpace);
  }

  /** The text every field extractor reads: `re.sub(r'\s+', ' ', txn.strip())`. */
  function Normalize(txn: string): (r: string)
    ensures IsTrimmed(r)
    ensures NonSpace(r) == NonSpace(txn)
    ensures SingleSpaced(r)
  {
    var t := Strip(txn);
    StripKeepsNonSpace(txn);
    CollapseSpacesCollapsed(t);
    CollapseSpaces(t)
  }

  /** Text that is already trimmed and single-spaced is its own normal form. */
  lemma NormalizeFixed(s: string)
    requires IsTrimmed(s) && SingleSpaced(s)
    ensures Normalize(s) == s
  {
    StripTrimmed(s);
    CollapseFixed(s);
  }

  /** Normalizing twice is normalizing once. */
  lemma NormalizeIdempotent(s: string)
    ensures Normalize(Normalize(s)) == Normalize(s)
  {
    NormalizeFixed(Normalize(s));
  }

  lemma StripKeepsNonSpace(s: string)
    ensures NonSpace(Strip(s)) == NonSpace(s)
  {
    var a := SpanEnd(s, 0, IsSpace);
    var b := TrimEndFrom(s, a);
    assert Strip(s) == s[a..b];
    TrimKeepsNonSpace(s, a, b);
  }

  /** Cutting whitespace off both ends keeps the other characters. */
  lemma TrimKeepsNonSpace(s: string, a: nat, b: nat)
    requires a <= b <= |s|
    requires forall k :: 0 <= k < a ==> IsSpace(s[k])
    requires forall k :: b <= k < |s| ==> IsSpace(s[k])
    ensures NonSpace(s[a..b]) == NonSpace(s)
  {
    assert AllSpace(s[..a]);
    NonSpaceSkip(s, a);
    TrailingSpaces(s, a, b);
  }

  /** The whitespace from `b` on adds nothing to the characters of `s[a..]`. */
  lemma TrailingSpaces(s: string, a: nat, b: nat)
    requires a <= b <= |s|
    requires forall k :: b <= k < |s| ==> IsSpace(s[k])
    ensures NonSpace(s[a..b]) == NonSpace(s[a..])
  {
    var t := s[a..];
    assert t[b - a..] == s[b..];
    assert AllSpace(t[b - a..]);
    NonSpaceTail(t, b - a);
    assert t[..b - a] == s[a..b];
  }

  lemma {:induction false} NonSpaceTail(s: string, n: nat)
    requires n <= |s| && AllSpace(s[n..])
    ensures NonSpace(s) == NonSpace(s[..n])
    decreases |s|
  {
    if n == 0 {
      NonSpaceSkip(s, |s|);
      assert s[|s|..] == [];
    } else {
      assert s[1..][n - 1..] == s[n..];
      NonSpaceTail(s[1..], n - 1);
      assert s[..n][1..] == s[1..][..n - 1];
    }
  }

  /** `" ".join(parts)`. */
  function JoinSpace(parts: seq<string>): string {
    if parts == [] then []
    else if |parts| == 1 then parts[0]
    else parts[0] + " " + JoinSpace(parts[1..])
  }

  /** The value of a string of ASCII digits (non-digits count as 0). */
  function DigitsValue(s: string): nat {
    if s == [] then 0
    else DigitsValue(s[..|s| - 1]) * 10 + DigitValue(s[|s| - 1])
  }

  function DigitValue(c: char): nat {
    if IsDigit(c) then c as int - '0' as int else 0
  }
}
