/**
 * `re.search` and the parser's "try these patterns in order" chains.
 *
 * A pattern is modelled as a matcher: given the text and a start position
 * it says whether the regex matches there and, if so, what its capture is.
 * Where a regex could match more than one prefix at a start, the matcher
 * returns the greedy match `re` picks: each greedy repetition runs as far
 * as it can, and what follows it is something the repetition cannot
 * consume, so no backtracking changes that choice. `re.search` then tries
 * the start positions from left to right.
 */
module Search {
  import opened Wrappers

  type Matcher<T> = (string, nat) -> Option<T>

  /** The leftmost start position at or after `i` where `m` matches, with its capture. */
  function LeftmostFrom<T>(s: string, m: Matcher<T>, i: nat): (r: Option<(nat, T)>)
    ensures r.Some? ==> i <= r.value.0 <= |s| && m(s, r.value.0) == Some(r.value.1)
    ensures r.Some? ==> forall j :: i <= j < r.value.0 ==> m(s, j).None?
    ensures r.None? ==> forall j :: i <= j <= |s| ==> m(s, j).None?
    decreases |s| + 1 - i
  {
    if i > |s| then None
    else
      match m(s, i)
      case Some(v) => Some((i, v))
      case None => LeftmostFrom(s, m, i + 1)
  }

  /** `re.search(pattern, s)`: the leftmost match of `m` in `s`, with its start and capture. */
  function Leftmost<T>(s: string, m: Matcher<T>): (r: Option<(nat, T)>)
    ensures r.Some? ==> r.value.0 <= |s| && m(s, r.value.0) == Some(r.value.1)
    ensures r.Some? ==> forall j :: 0 <= j < r.value.0 ==> m(s, j).None?
    ensures r.None? <==> forall j :: 0 <= j <= |s| ==> m(s, j).None?
  {
    LeftmostFrom(s, m, 0)
  }

  /** A match at position `i` means `re.search` finds one, at `i` or further left. */
  lemma MatchFound<T>(s: string, m: Matcher<T>, i: nat)
    requires i <= |s| && m(s, i).Some?
    ensures Leftmost(s, m).Some? && Leftmost(s, m).value.0 <= i
  {
  }

  /** A match at `i` with none to its left is the one `re.search` finds. */
  lemma LeftmostIs<T>(s: string, m: Matcher<T>, i: nat)
    requires i <= |s| && m(s, i).Some?
    requires forall j :: 0 <= j < i ==> m(s, j).None?
    ensures Leftmost(s, m) == Some((i, m(s, i).value))
  {
  }

  /**
   * `for pattern in patterns: match = re.search(pattern, s); if match: ...`:
   * the capture of the first pattern, in list order, that matches anywhere.
   */
  function FirstCapture<T>(s: string, patterns: seq<Matcher<T>>): (r: Option<T>)
    ensures r.None? <==> forall k :: 0 <= k < |patterns| ==> Leftmost(s, patterns[k]).None?
    decreases |patterns|
  {
    if patterns == [] then None
    else
      match Leftmost(s, patterns[0])
      case Some((_, c)) => Some(c)
      case None =>
        var r := FirstCapture(s, patterns[1..]);
        assert forall k :: 1 <= k < |patterns| ==> patterns[k] == patterns[1..][k - 1];
        r
  }

  /** None of the first `k` patterns matches anywhere. */
  predicate NoneBefore<T>(s: string, patterns: seq<Matcher<T>>, k: nat)
    requires k <= |patterns|
  {
    forall j :: 0 <= j < k ==> Leftmost(s, patterns[j]).None?
  }

  lemma NoneBeforeStep<T>(s: string, patterns: seq<Matcher<T>>, k: nat)
    requires k < |patterns| && NoneBefore(s, patterns, k) && Leftmost(s, patterns[k]).None?
    ensures NoneBefore(s, patterns, k + 1)
  {
  }

  /** When no pattern matches, there is no capture. */
  lemma NoneBeforeAll<T>(s: string, patterns: seq<Matcher<T>>)
    requires NoneBefore(s, patterns, |patterns|)
    ensures FirstCapture(s, patterns).None?
  {
  }

  /** The pattern at position `k` decides the result when it matches and none before it does. */
  lemma {:induction false} FirstCaptureIs<T>(s: string, patterns: seq<Matcher<T>>, k: nat)
    requires k < |patterns|
    requires forall j :: 0 <= j < k ==> Leftmost(s, patterns[j]).None?
    requires Leftmost(s, patterns[k]).Some?
    ensures FirstCapture(s, patterns) == Some(Leftmost(s, patterns[k]).value.1)
    decreases k
  {
    if k > 0 {
      assert patterns[1..][k - 1] == patterns[k];
      assert forall j :: 0 <= j < k - 1 ==> patterns[1..][j] == patterns[j + 1];
      FirstCaptureIs(s, patterns[1..], k - 1);
    }
  }

  /** A result always comes from some pattern of the list, the first one that matches. */
  lemma {:induction false} FirstCaptureFrom<T>(s: string, patterns: seq<Matcher<T>>) returns (k: nat)
    requires FirstCapture(s, patterns).Some?
    ensures k < |patterns| && Leftmost(s, patterns[k]).Some?
    ensures forall j :: 0 <= j < k ==> Leftmost(s, patterns[j]).None?
    ensures FirstCapture(s, patterns) == Some(Leftmost(s, patterns[k]).value.1)
    decreases |patterns|
  {
    if Leftmost(s, patterns[0]).Some? {
      k := 0;
    } else {
      var k' := FirstCaptureFrom(s, patterns[1..]);
      k := k' + 1;
      assert patterns[1..][k'] == patterns[k];
      assert forall j :: 1 <= j < k ==> patterns[j] == patterns[1..][j - 1];
    }
  }
}
