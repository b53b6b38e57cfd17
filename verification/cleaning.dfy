/**
 * Line cleaning, the first stage of the upload handler (`main.py:196-222`):
 * drop the preamble up to and including the first column-header line, then
 * strip every line, skip blank lines and further header lines, and stop at
 * the first line that carries a footer disclaimer.
 */
module Cleaning {
  import opened Wrappers
  import opened Text
  import opened Search
  import opened Seqs

  /** `Date\s+Details\s+Ref\s+No` under `re.I`, tried at `i`; each `\s+` ends where the next word begins. */
  function HeaderAt(s: string, i: nat): Option<nat> {
    if CiLitAt(s, i, "date") then
      var a := SpaceEnd(s, i + 4);
      if i + 4 < a && CiLitAt(s, a, "details") then
        var b := SpaceEnd(s, a + 7);
        if a + 7 < b && CiLitAt(s, b, "ref") then
          var c := SpaceEnd(s, b + 3);
          if b + 3 < c && CiLitAt(s, c, "no") then Some(c + 2) else None
        else None
      else None
    else None
  }

  /** The column-header test, anywhere in the line: `re.search` succeeds at some position. */
  predicate IsHeaderLine(line: string) {
    HeaderFrom(line, 0)
  }

  predicate HeaderFrom(s: string, i: nat)
    decreases |s| - i
  {
    i <= |s| && (HeaderAt(s, i).Some? || HeaderFrom(s, i + 1))
  }

  const FooterPhrases: seq<string> := [
    "please do not share your atm",
    "bank never ask for such information",
    "computer generated statement",
    "does not require a signature",
    "balance as on"
  ]

  /** `any(fp in line.lower() for fp in footer_phrases)`. */
  predicate IsFooterLine(line: string) {
    ContainsAny(Lower(line), FooterPhrases)
  }

  /** `start` in the handler: the index of the first header line, if any. */
  function HeaderIndex(lines: seq<string>): Option<nat> {
    FirstIndexFrom(lines, 0, IsHeaderLine)
  }

  /** Where the statement body begins: just after the first header line, or at the top. */
  function BodyStart(lines: seq<string>): (b: nat)
    ensures b <= |lines|
  {
    match HeaderIndex(lines)
    case Some(h) => h + 1
    case None => 0
  }

  /** `norm` applied to every line. */
  function MapLines(lines: seq<string>, norm: string -> string): (r: seq<string>)
    ensures |r| == |lines| && forall k :: 0 <= k < |lines| ==> r[k] == norm(lines[k])
  {
    seq(|lines|, k requires 0 <= k < |lines| => norm(lines[k]))
  }

  function StripAll(lines: seq<string>): seq<string> {
    MapLines(lines, Strip)
  }

  /**
   * A per-line pass: each line is cleaned up with `norm`; it is then skipped
   * when `skip` holds, ends the pass when `stop` holds, and is kept
   * otherwise.
   */
  function KeptBy(body: seq<string>, norm: string -> string, skip: string -> bool, stop: string -> bool): seq<string> {
    if body == [] then []
    else
      var line := norm(body[0]);
      if skip(line) then KeptBy(body[1..], norm, skip, stop)
      else if stop(line) then []
      else [line] + KeptBy(body[1..], norm, skip, stop)
  }

  /** A stripped line the handler passes over: blank, or a repeated column header. */
  predicate Skipped(line: string) {
    line == [] || IsHeaderLine(line)
  }

  /** A body line ends the scan: once stripped it is not passed over, and carries a footer. */
  predicate Stops(line: string) {
    !Skipped(Strip(line)) && IsFooterLine(Strip(line))
  }

  /**
   * The handler's per-line pass over the body: strip each line, skip it
   * when blank or a header, stop at the first footer, keep it otherwise.
   */
  function KeptLines(body: seq<string>): seq<string> {
    KeptBy(body, Strip, Skipped, IsFooterLine)
  }

  /** `clean_lines`: the cleaned statement lines. */
  function Clean(lines: seq<string>): seq<string> {
    KeptLines(lines[BodyStart(lines)..])
  }

  /** Line cleaning as the handler does it: a search loop for the header, then a filtering loop. */
  method CleanLines(lines: seq<string>) returns (clean: seq<string>)
    ensures clean == Clean(lines)
  {
    var start := FindHeader(lines);
    var body := if start.Some? then lines[start.value + 1..] else lines;
    clean := FilterBody(body);
  }

  /** The header search: the index of the first line holding the column headers. */
  method FindHeader(lines: seq<string>) returns (start: Option<nat>)
    ensures start == HeaderIndex(lines)
  {
    start := None;
    var i := 0;
    while i < |lines|
      invariant i <= |lines| && start.None?
      invariant forall j :: 0 <= j < i ==> !IsHeaderLine(lines[j])
    {
      if IsHeaderLine(lines[i]) {
        start := Some(i);
        return;
      }
      i := i + 1;
    }
  }

  /** The filtering loop over the body lines. */
  method FilterBody(body: seq<string>) returns (clean: seq<string>)
    ensures clean == KeptLines(body)
  {
    clean := [];
    for k := 0 to |body|
      invariant clean + KeptLines(body[k..]) == KeptLines(body)
    {
      var line := Strip(body[k]);
      KeptByStep(body, k, Strip, Skipped, IsFooterLine);
      if line == [] {
        continue;
      }
      if IsHeaderLine(line) {
        continue;
      }
      if IsFooterLine(line) {
        assert clean == KeptLines(body);
        return;
      }
      AppendAssoc(clean, [line], KeptLines(body[k + 1..]));
      clean := clean + [line];
    }
    assert body[|body|..] == [];
  }

  /** One step of a per-line pass, at position `k` of the body. */
  lemma KeptByStep(body: seq<string>, k: nat, norm: string -> string, skip: string -> bool, stop: string -> bool)
    requires k < |body|
    ensures var line := norm(body[k]);
      KeptBy(body[k..], norm, skip, stop) ==
        if skip(line) then KeptBy(body[k + 1..], norm, skip, stop)
        else if stop(line) then []
        else [line] + KeptBy(body[k + 1..], norm, skip, stop)
  {
    assert body[k..][0] == body[k] && body[k..][1..] == body[k + 1..];
  }

  /** What a per-line pass keeps is neither skipped nor a stop line, and is taken in order from the cleaned-up body. */
  lemma {:induction false} KeptByWellFormed(body: seq<string>, norm: string -> string, skip: string -> bool, stop: string -> bool)
    ensures var r := KeptBy(body, norm, skip, stop);
      && (forall k :: 0 <= k < |r| ==> !skip(r[k]) && !stop(r[k]))
      && IsSubseq(r, MapLines(body, norm))
  {
    if body != [] {
      KeptByWellFormed(body[1..], norm, skip, stop);
      var line := norm(body[0]);
      var r := KeptBy(body, norm, skip, stop);
      assert MapLines(body, norm)[0] == line && MapLines(body, norm)[1..] == MapLines(body[1..], norm);
      if !skip(line) && !stop(line) {
        assert r[0] == line && r[1..] == KeptBy(body[1..], norm, skip, stop);
      }
    }
  }

  /**
   * What survives the handler's pass is stripped, non-blank, neither header
   * nor footer, and taken in order from the stripped body.
   */
  lemma KeptLinesWellFormed(body: seq<string>)
    ensures var r := KeptLines(body);
      && (forall k :: 0 <= k < |r| ==> r[k] != [] && IsTrimmed(r[k]))
      && (forall k :: 0 <= k < |r| ==> !IsHeaderLine(r[k]) && !IsFooterLine(r[k]))
      && IsSubseq(r, StripAll(body))
  {
    var r := KeptLines(body);
    KeptByWellFormed(body, Strip, Skipped, IsFooterLine);
    SubseqElements(r, StripAll(body));
    forall k | 0 <= k < |r|
      ensures IsTrimmed(r[k])
    {
      assert r[k] in r;
    }
  }

  /** Every surviving line is non-blank, trimmed, and neither a header nor a footer line. */
  lemma CleanLinesWellFormed(lines: seq<string>)
    ensures forall l :: l in Clean(lines) ==> l != [] && Strip(l) == l && !IsHeaderLine(l) && !IsFooterLine(l)
  {
    KeptLinesWellFormed(lines[BodyStart(lines)..]);
    forall l | l in Clean(lines)
      ensures l != [] && Strip(l) == l && !IsHeaderLine(l) && !IsFooterLine(l)
    {
      StripTrimmed(l);
    }
  }

  /**
   * The survivors are an in-order subsequence of the stripped lines that
   * follow the first header line; so nothing at or before it survives.
   */
  lemma CleanAfterHeader(lines: seq<string>)
    ensures IsSubseq(Clean(lines), StripAll(lines)[BodyStart(lines)..])
    ensures IsSubseq(Clean(lines), StripAll(lines))
    ensures forall h :: HeaderIndex(lines) == Some(h) ==> IsSubseq(Clean(lines), StripAll(lines[h + 1..]))
  {
    var b := BodyStart(lines);
    KeptByWellFormed(lines[b..], Strip, Skipped, IsFooterLine);
    MapLinesSuffix(lines, b, Strip);
    SubseqOfSuffix(Clean(lines), StripAll(lines), b);
  }

  lemma MapLinesSuffix(lines: seq<string>, b: nat, norm: string -> string)
    requires b <= |lines|
    ensures MapLines(lines[b..], norm) == MapLines(lines, norm)[b..]
  {
  }

  /** A stop line at `j` ends the pass begun at `b`: nothing from it on matters. */
  lemma {:induction false} KeptByStop(lines: seq<string>, b: nat, j: nat, norm: string -> string, skip: string -> bool, stop: string -> bool)
    requires b <= j < |lines| && !skip(norm(lines[j])) && stop(norm(lines[j]))
    ensures KeptBy(lines[b..], norm, skip, stop) == KeptBy(lines[b..j], norm, skip, stop)
    decreases j - b
  {
    assert lines[b..][0] == lines[b] && lines[b..][1..] == lines[b + 1..];
    if b < j {
      assert lines[b..j][0] == lines[b] && lines[b..j][1..] == lines[b + 1..j];
      KeptByStop(lines, b + 1, j, norm, skip, stop);
    }
  }

  lemma HeaderIndexPrefix(lines: seq<string>, j: nat)
    requires BodyStart(lines) <= j <= |lines|
    ensures HeaderIndex(lines[..j]) == HeaderIndex(lines)
    ensures BodyStart(lines[..j]) == BodyStart(lines)
  {
    FirstIndexPrefix(lines, j, IsHeaderLine);
  }

  /**
   * The first footer line ends the statement: it and every line after it
   * are irrelevant, the result being that of the lines before it.
   */
  lemma CleanStopsAtFooter(lines: seq<string>, j: nat)
    requires BodyStart(lines) <= j < |lines| && Stops(lines[j])
    ensures Clean(lines) == Clean(lines[..j])
  {
    KeptByStop(lines, BodyStart(lines), j, Strip, Skipped, IsFooterLine);
    HeaderIndexPrefix(lines, j);
    assert lines[..j][BodyStart(lines)..] == lines[BodyStart(lines)..j];
  }

  /** The preamble before the first header line, whatever it holds, does not affect the result. */
  lemma PreambleIgnored(preamble: seq<string>, rest: seq<string>)
    requires forall k :: 0 <= k < |preamble| ==> !IsHeaderLine(preamble[k])
    requires rest != [] && IsHeaderLine(rest[0])
    ensures Clean(preamble + rest) == Clean(rest)
  {
    var lines := preamble + rest;
    FirstIndexAfter(preamble, rest, IsHeaderLine);
    assert lines[|preamble| + 1..] == rest[1..];
  }

  /** A line of the pass begun at `b` that nothing before it stops, and that is neither skipped nor a stop line, is kept. */
  lemma {:induction false} KeptByKeeps(lines: seq<string>, b: nat, j: nat, norm: string -> string, skip: string -> bool, stop: string -> bool)
    requires b <= j < |lines|
    requires forall k :: b <= k < j ==> skip(norm(lines[k])) || !stop(norm(lines[k]))
    requires !skip(norm(lines[j])) && !stop(norm(lines[j]))
    ensures norm(lines[j]) in KeptBy(lines[b..], norm, skip, stop)
    decreases j - b
  {
    assert lines[b..][0] == lines[b] && lines[b..][1..] == lines[b + 1..];
    if b < j {
      KeptByKeeps(lines, b + 1, j, norm, skip, stop);
    }
  }

  /**
   * Conversely, a non-blank body line that is neither header nor footer
   * survives (stripped) unless a footer line came before it.
   */
  lemma CleanKeeps(lines: seq<string>, j: nat)
    requires BodyStart(lines) <= j < |lines|
    requires forall k :: BodyStart(lines) <= k < j ==> !Stops(lines[k])
    requires Strip(lines[j]) != [] && !IsHeaderLine(Strip(lines[j])) && !IsFooterLine(Strip(lines[j]))
    ensures Strip(lines[j]) in Clean(lines)
  {
    KeptByKeeps(lines, BodyStart(lines), j, Strip, Skipped, IsFooterLine);
  }
}
