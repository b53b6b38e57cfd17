/**
 * The Transaction Grouper (`group_transactions`): cleaned lines are folded
 * into one space-joined blob per transaction; a blob starts at every line
 * that begins with a date signature, and lines before the first such line
 * form a leading blob of their own.
 */
module Grouping {
  import opened Text
  import opened Dates
  import opened Seqs

  /**
   * The groups of lines the grouper builds (`current` at each flush), read
   * off the input one line at a time from the left, for a given test of
   * "this line starts a transaction".
   */
  function GroupsBy(lines: seq<string>, isStart: string -> bool): (gs: seq<seq<string>>)
    ensures (gs == []) == (lines == [])
    decreases |lines|
  {
    if lines == [] then [] else Extend(GroupsBy(lines[..|lines| - 1], isStart), lines[|lines| - 1], isStart)
  }

  /** One step of the grouper: a start line (or the very first line) opens a new group, any other joins the last. */
  function Extend(gs: seq<seq<string>>, line: string, isStart: string -> bool): (r: seq<seq<string>>)
    ensures r != []
  {
    if isStart(line) || gs == [] then gs + [[line]]
    else gs[..|gs| - 1] + [gs[|gs| - 1] + [line]]
  }

  /** The groups `group_transactions` builds: a line starts a transaction when it begins with a date. */
  function Groups(lines: seq<string>): seq<seq<string>> {
    GroupsBy(lines, IsStartLine)
  }

  /** `" ".join` of each group. */
  function JoinAll(gs: seq<seq<string>>): (r: seq<string>)
    ensures |r| == |gs|
    ensures forall j :: 0 <= j < |gs| ==> r[j] == JoinSpace(gs[j])
  {
    seq(|gs|, j requires 0 <= j < |gs| => JoinSpace(gs[j]))
  }

  /** The blobs `group_transactions` returns. */
  function Blobs(lines: seq<string>): seq<string> {
    JoinAll(Groups(lines))
  }

  /** The grouper as the source writes it: an accumulator `current` flushed at each start line. */
  method GroupTransactions(lines: seq<string>) returns (transactions: seq<string>)
    ensures transactions == Blobs(lines)
  {
    transactions := [];
    var current: seq<string> := [];
    for k := 0 to |lines|
      invariant Accumulated(transactions, current, Groups(lines[..k]))
    {
      var line := lines[k];
      assert lines[..k + 1] == lines[..k] + [line];
      GroupsBySnoc(lines[..k], line, IsStartLine);
      AccumulatedStep(transactions, current, Groups(lines[..k]), line, IsStartLine);
      if IsStartLine(line) {
        if current != [] {
          transactions := transactions + [JoinSpace(current)];
        }
        current := [line];
      } else {
        current := current + [line];
      }
    }
    assert lines[..|lines|] == lines;
    AccumulatedFlush(transactions, current, Groups(lines));
    if current != [] {
      transactions := transactions + [JoinSpace(current)];
    }
  }

  /**
   * The grouper's state after some lines with groups `gs`: the blobs of
   * every group but the last are out, and `current` holds the last group.
   */
  predicate Accumulated(transactions: seq<string>, current: seq<string>, gs: seq<seq<string>>) {
    if gs == [] then transactions == [] && current == []
    else current == gs[|gs| - 1] && current != [] && transactions == JoinAll(gs[..|gs| - 1])
  }

  /** Each iteration of the loop keeps the state in step with one more step of the grouping. */
  lemma AccumulatedStep(transactions: seq<string>, current: seq<string>, gs: seq<seq<string>>, line: string,
                        isStart: string -> bool)
    requires Accumulated(transactions, current, gs)
    ensures isStart(line) ==> Accumulated(if current != [] then transactions + [JoinSpace(current)] else transactions,
                                          [line], Extend(gs, line, isStart))
    ensures !isStart(line) ==> Accumulated(transactions, current + [line], Extend(gs, line, isStart))
  {
    var r := Extend(gs, line, isStart);
    if isStart(line) || gs == [] {
      assert r[..|r| - 1] == gs;
      if gs != [] {
        SnocSplit(gs);
        assert JoinAll(gs) == JoinAll(gs[..|gs| - 1]) + [JoinSpace(current)];
      }
    } else {
      assert r[..|r| - 1] == gs[..|gs| - 1];
    }
  }

  /** After the loop, flushing the last group gives the blobs of every group. */
  lemma AccumulatedFlush(transactions: seq<string>, current: seq<string>, gs: seq<seq<string>>)
    requires Accumulated(transactions, current, gs)
    ensures (if current != [] then transactions + [JoinSpace(current)] else transactions) == JoinAll(gs)
  {
    if gs != [] {
      SnocSplit(gs);
      assert JoinAll(gs) == JoinAll(gs[..|gs| - 1]) + [JoinSpace(current)];
    }
  }

  /** Concatenating the groups, in order. */
  function Flatten(gs: seq<seq<string>>): seq<string> {
    if gs == [] then [] else Flatten(gs[..|gs| - 1]) + gs[|gs| - 1]
  }

  /**
   * The shape of a grouping: no group is empty, every group after the
   * first begins with a start line, and no line other than a group's first
   * is a start line.
   */
  ghost predicate WellGrouped(gs: seq<seq<string>>, isStart: string -> bool) {
    && (forall j :: 0 <= j < |gs| ==> gs[j] != [])
    && (forall j :: 0 < j < |gs| ==> isStart(gs[j][0]))
    && (forall j, m :: 0 <= j < |gs| && 0 < m < |gs[j]| ==> !isStart(gs[j][m]))
  }

  /** The groups, put back together, give the input lines: nothing lost, duplicated or reordered. */
  lemma {:induction false} GroupsFlatten(lines: seq<string>, isStart: string -> bool)
    ensures Flatten(GroupsBy(lines, isStart)) == lines
    decreases |lines|
  {
    if lines != [] {
      var init := lines[..|lines| - 1];
      var line := lines[|lines| - 1];
      GroupsFlatten(init, isStart);
      FlattenExtend(GroupsBy(init, isStart), line, isStart);
      SnocSplit(lines);
    }
  }

  /** One step of the grouper appends its line to the lines of the groups. */
  lemma FlattenExtend(gs: seq<seq<string>>, line: string, isStart: string -> bool)
    ensures Flatten(Extend(gs, line, isStart)) == Flatten(gs) + [line]
  {
    var r := Extend(gs, line, isStart);
    var n := |gs|;
    if isStart(line) || gs == [] {
      assert r[..n] == gs;
    } else {
      assert r[..n - 1] == gs[..n - 1];
      AppendAssoc(Flatten(gs[..n - 1]), gs[n - 1], [line]);
    }
  }

  /** The grouper's result has the shape above: every start line begins a new blob. */
  lemma {:induction false} GroupsWellGrouped(lines: seq<string>, isStart: string -> bool)
    ensures WellGrouped(GroupsBy(lines, isStart), isStart)
    decreases |lines|
  {
    if lines != [] {
      var init := lines[..|lines| - 1];
      var line := lines[|lines| - 1];
      var gs := GroupsBy(init, isStart);
      GroupsWellGrouped(init, isStart);
      if isStart(line) || gs == [] {
        var r := gs + [[line]];
        assert forall j :: 0 <= j < |gs| ==> r[j] == gs[j];
      } else {
        var r := gs[..|gs| - 1] + [gs[|gs| - 1] + [line]];
        assert forall j :: 0 <= j < |gs| - 1 ==> r[j] == gs[j];
        assert r[|gs| - 1] == gs[|gs| - 1] + [line];
      }
    }
  }

  /** Lines none of which starts a transaction form one group. */
  lemma {:induction false} GroupsNoStart(lines: seq<string>, isStart: string -> bool)
    requires lines != [] && forall k :: 0 <= k < |lines| ==> !isStart(lines[k])
    ensures GroupsBy(lines, isStart) == [lines]
    decreases |lines|
  {
    var init := lines[..|lines| - 1];
    if init != [] {
      GroupsNoStart(init, isStart);
      assert init + [lines[|lines| - 1]] == lines;
    } else {
      assert lines == [lines[0]];
    }
  }

  /** Grouping splits at a start line: the lines before it and the lines from it on are grouped apart. */
  lemma GroupsSplit(lines: seq<string>, j: nat, isStart: string -> bool)
    requires j < |lines| && isStart(lines[j])
    ensures GroupsBy(lines, isStart) == GroupsBy(lines[..j], isStart) + GroupsBy(lines[j..], isStart)
  {
    assert lines == lines[..j] + lines[j..];
    GroupsAppend(lines[..j], lines[j..], isStart);
  }

  /** Lines that begin with a start line are grouped apart from the lines before them. */
  lemma {:induction false} GroupsAppend(pre: seq<string>, post: seq<string>, isStart: string -> bool)
    requires post != [] && isStart(post[0])
    ensures GroupsBy(pre + post, isStart) == GroupsBy(pre, isStart) + GroupsBy(post, isStart)
    decreases |post|
  {
    var front, x := post[..|post| - 1], post[|post| - 1];
    SnocSplit(post);
    AppendAssoc(pre, front, [x]);
    GroupsBySnoc(pre + front, x, isStart);
    GroupsBySnoc(front, x, isStart);
    if front == [] {
      assert pre + front == pre;
    } else {
      GroupsAppend(pre, front, isStart);
      ExtendAppend(GroupsBy(pre, isStart), GroupsBy(front, isStart), x, isStart);
    }
  }

  /** The grouper reads its input from the left: one more line is one more step. */
  lemma GroupsBySnoc(xs: seq<string>, x: string, isStart: string -> bool)
    ensures GroupsBy(xs + [x], isStart) == Extend(GroupsBy(xs, isStart), x, isStart)
  {
    assert (xs + [x])[..|xs|] == xs;
  }

  lemma ExtendAppend(A: seq<seq<string>>, B: seq<seq<string>>, line: string, isStart: string -> bool)
    requires B != []
    ensures Extend(A + B, line, isStart) == A + Extend(B, line, isStart)
  {
    if !isStart(line) {
      assert (A + B)[..|A + B| - 1] == A + B[..|B| - 1];
      assert (A + B)[|A + B| - 1] == B[|B| - 1];
    }
  }

  /**
   * The leading group is exactly the run of lines before the first start
   * line (the whole input when there is none).
   */
  lemma LeadingGroup(lines: seq<string>, j: nat, isStart: string -> bool)
    requires 0 < j <= |lines| && forall k :: 0 <= k < j ==> !isStart(lines[k])
    requires j == |lines| || isStart(lines[j])
    ensures GroupsBy(lines, isStart)[0] == lines[..j]
  {
    GroupsNoStart(lines[..j], isStart);
    if j < |lines| {
      GroupsSplit(lines, j, isStart);
    } else {
      assert lines[..j] == lines;
    }
  }

  lemma {:induction false} FlattenFirst(gs: seq<seq<string>>)
    requires gs != [] && gs[0] != []
    ensures Flatten(gs) != [] && Flatten(gs)[0] == gs[0][0]
    decreases |gs|
  {
    if |gs| > 1 {
      FlattenFirst(gs[..|gs| - 1]);
    } else {
      assert gs[..0] == [];
    }
  }

  /** The number of start lines. */
  function CountStarts(lines: seq<string>, isStart: string -> bool): nat {
    if lines == [] then 0
    else CountStarts(lines[..|lines| - 1], isStart) + (if isStart(lines[|lines| - 1]) then 1 else 0)
  }

  /**
   * One blob per start line, plus the leading blob when the input does not
   * begin with a start line.
   */
  lemma {:induction false} GroupsCount(lines: seq<string>, isStart: string -> bool)
    ensures |GroupsBy(lines, isStart)| == CountStarts(lines, isStart) + (if lines != [] && !isStart(lines[0]) then 1 else 0)
    decreases |lines|
  {
    if lines != [] {
      var init := lines[..|lines| - 1];
      GroupsCount(init, isStart);
      if init != [] {
        assert init[0] == lines[0];
      }
    }
  }

  /**
   * Grouping is determined by its shape: any well-shaped grouping of the
   * same lines is the one the grouper builds.
   */
  lemma {:induction false} GroupsUnique(lines: seq<string>, gs: seq<seq<string>>, isStart: string -> bool)
    requires WellGrouped(gs, isStart) && Flatten(gs) == lines
    ensures gs == GroupsBy(lines, isStart)
    decreases |lines|
  {
    if gs == [] {
      assert lines == [];
    } else {
      var line := LastLine(gs);
      var prefix := Peel(gs);
      PeelStep(gs, isStart);
      var init := Flatten(prefix);
      assert lines[..|lines| - 1] == init && lines[|lines| - 1] == line;
      GroupsUnique(init, prefix, isStart);
    }
  }

  /** The last line of a grouping whose last group is not empty. */
  function LastLine(gs: seq<seq<string>>): string
    requires gs != [] && gs[|gs| - 1] != []
  {
    var last := gs[|gs| - 1];
    last[|last| - 1]
  }

  /** A grouping with its last line taken off: a one-line last group is dropped, a longer one shortened. */
  function Peel(gs: seq<seq<string>>): seq<seq<string>>
    requires gs != []
  {
    var n, last := |gs|, gs[|gs| - 1];
    if |last| <= 1 then gs[..n - 1] else gs[..n - 1] + [last[..|last| - 1]]
  }

  /** Peeling the last line off a well-shaped grouping leaves one that the grouper's step extends back. */
  lemma PeelStep(gs: seq<seq<string>>, isStart: string -> bool)
    requires WellGrouped(gs, isStart) && gs != []
    ensures gs[|gs| - 1] != []
    ensures WellGrouped(Peel(gs), isStart)
    ensures Flatten(gs) == Flatten(Peel(gs)) + [LastLine(gs)]
    ensures Extend(Peel(gs), LastLine(gs), isStart) == gs
  {
    assert gs[|gs| - 1] != [];
    if |gs[|gs| - 1]| == 1 {
      DropLastGroup(gs, isStart);
    } else {
      ShortenLastGroup(gs, isStart);
    }
    PeelExtend(gs, isStart);
    PeelFlatten(gs);
  }

  /** The grouper's step puts a peeled line back where it was, given how the last group began. */
  lemma PeelExtend(gs: seq<seq<string>>, isStart: string -> bool)
    requires gs != [] && gs[|gs| - 1] != []
    requires |gs[|gs| - 1]| == 1 && |gs| > 1 ==> isStart(LastLine(gs))
    requires |gs[|gs| - 1]| > 1 ==> !isStart(LastLine(gs))
    ensures Extend(Peel(gs), LastLine(gs), isStart) == gs
  {
    var n, last := |gs|, gs[|gs| - 1];
    var prefix := Peel(gs);
    SnocSplit(gs);
    if |last| > 1 {
      SnocSplit(last);
      assert prefix[..n - 1] == gs[..n - 1];
      assert prefix[n - 1] == last[..|last| - 1];
    } else {
      assert last == [LastLine(gs)];
    }
  }

  /** Peeling the last line off a grouping takes it off the end of the lines. */
  lemma PeelFlatten(gs: seq<seq<string>>)
    requires gs != [] && gs[|gs| - 1] != []
    ensures Flatten(gs) == Flatten(Peel(gs)) + [LastLine(gs)]
  {
    var n, last := |gs|, gs[|gs| - 1];
    var prefix := Peel(gs);
    var line := LastLine(gs);
    SnocSplit(last);
    if |last| > 1 {
      assert prefix[..n - 1] == gs[..n - 1];
      assert prefix[n - 1] == last[..|last| - 1];
      AppendAssoc(Flatten(gs[..n - 1]), last[..|last| - 1], [line]);
    } else {
      assert last == [] + [line];
    }
  }

  /** Dropping a one-line last group leaves a well-shaped grouping; that line is a start line unless it was the only group. */
  lemma DropLastGroup(gs: seq<seq<string>>, isStart: string -> bool)
    requires WellGrouped(gs, isStart) && gs != [] && |gs[|gs| - 1]| == 1
    ensures WellGrouped(Peel(gs), isStart)
    ensures |gs| > 1 ==> isStart(LastLine(gs))
  {
    var prefix := Peel(gs);
    assert forall j :: 0 <= j < |prefix| ==> prefix[j] == gs[j];
  }

  /** Taking the last line off a longer last group leaves a well-shaped grouping; that line is not a start line. */
  lemma ShortenLastGroup(gs: seq<seq<string>>, isStart: string -> bool)
    requires WellGrouped(gs, isStart) && gs != [] && |gs[|gs| - 1]| > 1
    ensures WellGrouped(Peel(gs), isStart)
    ensures !isStart(LastLine(gs))
  {
    var n, last := |gs|, gs[|gs| - 1];
    var shorter := last[..|last| - 1];
    var prefix := Peel(gs);
    assert forall j :: 0 <= j < n - 1 ==> prefix[j] == gs[j];
    assert prefix[n - 1] == shorter;
    assert forall m :: 0 <= m < |shorter| ==> shorter[m] == last[m];
  }
}
