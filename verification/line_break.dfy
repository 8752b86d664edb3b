/** `_optimal_line_break`, the name-box line breaker. Both card generators
    carry the same copy (generate_png_cards.py and generate_cards.py), so one
    definition stands for both. */
module LineBreak {
  import opened Tokens
  import opened Numeric

  /** Splitting after the first `i` tokens leaves a first line within the threshold. */
  predicate Fits(ts: seq<string>, threshold: int, i: nat)
    requires i <= |ts|
  {
    |Join(ts[..i])| <= threshold
  }

  /** The largest split point in `[1, i]` that fits, or 0 when none does. */
  function LastFit(ts: seq<string>, threshold: int, i: nat): (b: nat)
    requires i <= |ts|
    ensures b <= i
    ensures b == 0 ==> forall j :: 1 <= j <= i ==> !Fits(ts, threshold, j)
    ensures b > 0 ==> Fits(ts, threshold, b) && forall j :: b < j <= i ==> !Fits(ts, threshold, j)
    decreases i
  {
    if i == 0 then 0
    else if Fits(ts, threshold, i) then i
    else LastFit(ts, threshold, i - 1)
  }

  /** The break-point search of the two-line mode as written: an upward scan
      keeping the longest first line seen so far. Because every token is
      non-empty the candidate lengths strictly increase, so the scan picks the
      last split point that fits. */
  method ChooseBreak(ts: seq<string>, threshold: int) returns (best: nat)
    requires |ts| >= 1
    requires forall k :: 0 <= k < |ts| ==> |ts[k]| > 0
    ensures best == LastFit(ts, threshold, |ts| - 1)
    ensures best == 0 ==> forall j :: 1 <= j < |ts| ==> !Fits(ts, threshold, j)
    ensures best > 0 ==> Fits(ts, threshold, best)
    ensures forall j :: best < j < |ts| ==> !Fits(ts, threshold, j)
  {
    best := 0;
    var bestLen := 0;
    var i := 1;
    assert ts[..1] == [ts[0]];
    while i < |ts|
      invariant 1 <= i <= |ts|
      invariant best == LastFit(ts, threshold, i - 1)
      invariant bestLen == if best == 0 then 0 else |Join(ts[..best])|
      invariant 0 < |Join(ts[..i])|
      invariant best > 0 ==> bestLen < |Join(ts[..i])|
    {
      var firstLen := |Join(ts[..i])|;
      if firstLen <= threshold && firstLen > bestLen {
        bestLen := firstLen;
        best := i;
      }
      JoinPrefixStep(ts, i);
      i := i + 1;
    }
  }

  /** The two lines for split point `b`. */
  function SplitAt(ts: seq<string>, b: nat): (lines: seq<string>)
    requires 1 <= b < |ts|
    ensures |lines| == 2 && lines[0] + " " + lines[1] == Join(ts)
  {
    assert ts == ts[..b] + ts[b..];
    JoinAppend(ts[..b], ts[b..]);
    [Join(ts[..b]), Join(ts[b..])]
  }

  /** The split of the two-line mode: the last split point that fits, or the
      middle token when none fits. */
  function BreakPoint(ts: seq<string>, threshold: int): (b: nat)
    requires |ts| >= 2
    ensures 1 <= b < |ts|
  {
    var last := LastFit(ts, threshold, |ts| - 1);
    if last > 0 then last else |ts| / 2
  }

  /** Python's `s[:k]`: a negative `k` counts from the end. */
  function PrefixSlice<T>(s: seq<T>, k: int): seq<T> {
    if k >= 0 then s[..if k <= |s| then k else |s|]
    else s[..if |s| + k >= 0 then |s| + k else 0]
  }

  /** A line group the greedy packer may emit: non-empty tokens that either
      fit the threshold together or are a single token. */
  predicate Packed(g: seq<string>, threshold: int) {
    |g| > 0 && AllTokens(g) && (|g| == 1 || |Join(g)| <= threshold)
  }

  predicate AllPacked(groups: seq<seq<string>>, threshold: int) {
    forall k :: 0 <= k < |groups| ==> Packed(groups[k], threshold)
  }

  /** All tokens of `groups`, in order. */
  function Flatten(groups: seq<seq<string>>): seq<string> {
    if |groups| == 0 then [] else Flatten(groups[..|groups| - 1]) + groups[|groups| - 1]
  }

  lemma FlattenSnoc(groups: seq<seq<string>>, g: seq<string>)
    ensures Flatten(groups + [g]) == Flatten(groups) + g
  {
    assert (groups + [g])[..|groups|] == groups;
  }

  /** The greedy packer of the other line counts, on token groups: `lines` are
      the groups already closed, `cur` the group being filled. A token that
      would push the open group past the threshold closes it (or, when the
      group is empty, becomes a line of its own), and the scan stops as soon
      as `maxLines` groups are closed. */
  function Greedy(ts: seq<string>, threshold: int, maxLines: int,
                  lines: seq<seq<string>>, cur: seq<string>): seq<seq<string>>
    decreases |ts|
  {
    if |ts| == 0 then
      if |cur| > 0 && |lines| < maxLines then lines + [cur] else lines
    else
      var t := ts[0];
      if |Join(cur + [t])| <= threshold then
        Greedy(ts[1..], threshold, maxLines, lines, cur + [t])
      else
        var closed := if |cur| > 0 then cur else [t];
        var open := if |cur| > 0 then [t] else [];
        var lines' := lines + [closed];
        if |lines'| >= maxLines then lines'
        else Greedy(ts[1..], threshold, maxLines, lines', open)
  }

  /** The greedy packer never exceeds the line budget, and cuts a prefix of
      its input tokens into packed groups. */
  lemma GreedyPacks(ts: seq<string>, threshold: int, maxLines: int,
                    lines: seq<seq<string>>, cur: seq<string>)
    requires AllTokens(ts) && AllTokens(cur) && AllPacked(lines, threshold)
    requires |cur| <= 1 || |Join(cur)| <= threshold
    requires |lines| < Max(1, maxLines)
    ensures var groups := Greedy(ts, threshold, maxLines, lines, cur);
            && AllPacked(groups, threshold)
            && |groups| <= Max(1, maxLines)
            && Flatten(groups) <= Flatten(lines) + cur + ts
  {
    GreedyPacked(ts, threshold, maxLines, lines, cur);
    GreedyBudget(ts, threshold, maxLines, lines, cur);
    GreedyPrefix(ts, threshold, maxLines, lines, cur);
  }

  lemma {:induction false} GreedyBudget(ts: seq<string>, threshold: int, maxLines: int,
                                        lines: seq<seq<string>>, cur: seq<string>)
    requires |lines| < Max(1, maxLines)
    ensures |Greedy(ts, threshold, maxLines, lines, cur)| <= Max(1, maxLines)
    decreases |ts|
  {
    if |ts| > 0 {
      var t := ts[0];
      if |Join(cur + [t])| <= threshold {
        GreedyBudget(ts[1..], threshold, maxLines, lines, cur + [t]);
      } else {
        var closed := if |cur| > 0 then cur else [t];
        var open := if |cur| > 0 then [t] else [];
        if |lines + [closed]| < maxLines {
          GreedyBudget(ts[1..], threshold, maxLines, lines + [closed], open);
        }
      }
    }
  }

  lemma {:induction false} GreedyPacked(ts: seq<string>, threshold: int, maxLines: int,
                                        lines: seq<seq<string>>, cur: seq<string>)
    requires AllTokens(ts) && AllTokens(cur) && AllPacked(lines, threshold)
    requires |cur| <= 1 || |Join(cur)| <= threshold
    ensures AllPacked(Greedy(ts, threshold, maxLines, lines, cur), threshold)
    decreases |ts|
  {
    if |ts| == 0 {
      if |cur| > 0 && |lines| < maxLines {
        assert Packed(cur, threshold);
        var lines' := lines + [cur];
        assert forall k :: 0 <= k < |lines| ==> lines'[k] == lines[k];
      }
    } else {
      var t := ts[0];
      assert IsToken(t);
      if |Join(cur + [t])| <= threshold {
        assert AllTokens(cur + [t]) by {
          assert forall k :: 0 <= k < |cur| ==> (cur + [t])[k] == cur[k];
        }
        GreedyPacked(ts[1..], threshold, maxLines, lines, cur + [t]);
      } else {
        CloseStep(lines, cur, t, threshold);
        var closed := if |cur| > 0 then cur else [t];
        var open := if |cur| > 0 then [t] else [];
        if |lines + [closed]| < maxLines {
          GreedyPacked(ts[1..], threshold, maxLines, lines + [closed], open);
        }
      }
    }
  }

  lemma {:induction false} GreedyPrefix(ts: seq<string>, threshold: int, maxLines: int,
                                        lines: seq<seq<string>>, cur: seq<string>)
    ensures Flatten(Greedy(ts, threshold, maxLines, lines, cur)) <= Flatten(lines) + cur + ts
    decreases |ts|
  {
    if |ts| == 0 {
      if |cur| > 0 && |lines| < maxLines {
        FlattenSnoc(lines, cur);
      }
    } else {
      var t := ts[0];
      assert ts == [t] + ts[1..];
      if |Join(cur + [t])| <= threshold {
        GreedyPrefix(ts[1..], threshold, maxLines, lines, cur + [t]);
        assert Flatten(lines) + (cur + [t]) + ts[1..] == Flatten(lines) + cur + ts;
      } else {
        var closed := if |cur| > 0 then cur else [t];
        var open := if |cur| > 0 then [t] else [];
        CloseFlatten(lines, cur, t, ts[1..]);
        if |lines + [closed]| < maxLines {
          GreedyPrefix(ts[1..], threshold, maxLines, lines + [closed], open);
        }
      }
    }
  }

  /** Closing the open group `cur` when token `t` does not fit: the closed
      group is packed, and the tokens, read in order, are unchanged. */
  lemma CloseStep(lines: seq<seq<string>>, cur: seq<string>, t: string, threshold: int)
    requires AllPacked(lines, threshold) && AllTokens(cur) && IsToken(t)
    requires |cur| <= 1 || |Join(cur)| <= threshold
    ensures var closed := if |cur| > 0 then cur else [t];
            var open := if |cur| > 0 then [t] else [];
            AllPacked(lines + [closed], threshold) && AllTokens(open)
  {
    var closed := if |cur| > 0 then cur else [t];
    assert Packed(closed, threshold);
    var lines' := lines + [closed];
    assert forall k :: 0 <= k < |lines| ==> lines'[k] == lines[k];
    assert lines'[|lines|] == closed;
  }

  /** Closing a group moves no token: the flattened groups plus the open
      group still read the same tokens in the same order. */
  lemma CloseFlatten(lines: seq<seq<string>>, cur: seq<string>, t: string, rest: seq<string>)
    ensures var closed := if |cur| > 0 then cur else [t];
            var open := if |cur| > 0 then [t] else [];
            Flatten(lines + [closed]) + open + rest == Flatten(lines) + cur + ([t] + rest)
  {
    var closed := if |cur| > 0 then cur else [t];
    FlattenSnoc(lines, closed);
  }

  /** When the scan ends under its line budget it has used every token: the
      groups read the closed groups, the open group and the rest in order. */
  lemma {:induction false} GreedyComplete(ts: seq<string>, threshold: int, maxLines: int,
                                          lines: seq<seq<string>>, cur: seq<string>)
    requires |lines| < maxLines
    ensures var groups := Greedy(ts, threshold, maxLines, lines, cur);
            |groups| < maxLines ==> Flatten(groups) == Flatten(lines) + cur + ts
    decreases |ts|
  {
    if |ts| == 0 {
      if |cur| > 0 {
        FlattenSnoc(lines, cur);
      }
    } else {
      var t := ts[0];
      assert ts == [t] + ts[1..];
      if |Join(cur + [t])| <= threshold {
        GreedyComplete(ts[1..], threshold, maxLines, lines, cur + [t]);
        assert Flatten(lines) + (cur + [t]) + ts[1..] == Flatten(lines) + cur + ts;
      } else {
        var closed := if |cur| > 0 then cur else [t];
        var open := if |cur| > 0 then [t] else [];
        CloseFlatten(lines, cur, t, ts[1..]);
        if |lines + [closed]| < maxLines {
          GreedyComplete(ts[1..], threshold, maxLines, lines + [closed], open);
        }
      }
    }
  }

  /** A scan that stops at its line budget stops at a full line: the last
      group joined with the first token it did not take exceeds the threshold.
      `all` is the scan's whole input, read from the closed groups, the open
      group and the rest. */
  lemma {:induction false} GreedyFull(ts: seq<string>, threshold: int, maxLines: int,
                                      lines: seq<seq<string>>, cur: seq<string>)
    requires |lines| < maxLines
    ensures var groups := Greedy(ts, threshold, maxLines, lines, cur);
            var all := Flatten(lines) + cur + ts;
            0 < |groups| == maxLines && |Flatten(groups)| < |all| ==>
              |Join(groups[|groups| - 1] + [all[|Flatten(groups)|]])| > threshold
    decreases |ts|
  {
    if |ts| == 0 {
      if |cur| > 0 {
        FlattenSnoc(lines, cur);
      }
    } else {
      var t := ts[0];
      var all := Flatten(lines) + cur + ts;
      assert ts == [t] + ts[1..];
      if |Join(cur + [t])| <= threshold {
        GreedyFull(ts[1..], threshold, maxLines, lines, cur + [t]);
        assert Flatten(lines) + (cur + [t]) + ts[1..] == all;
      } else {
        var closed := if |cur| > 0 then cur else [t];
        var open := if |cur| > 0 then [t] else [];
        var lines' := lines + [closed];
        CloseFlatten(lines, cur, t, ts[1..]);
        FlattenSnoc(lines, closed);
        if |lines'| < maxLines {
          GreedyFull(ts[1..], threshold, maxLines, lines', open);
        } else if |cur| > 0 {
          assert all[|Flatten(lines')|] == t;
        } else if |Flatten(lines')| < |all| {
          assert all == Flatten(lines') + ts[1..];
          JoinSnocLonger([t], all[|Flatten(lines')|]);
        }
      }
    }
  }

  /** Joining one more token to a non-empty group adds a space and the token. */
  lemma JoinSnoc(g: seq<string>, t: string)
    requires |g| > 0
    ensures Join(g + [t]) == Join(g) + " " + t
  {
    assert (g + [t])[..|g|] == g;
  }

  lemma JoinSnocLonger(g: seq<string>, t: string)
    ensures |Join(g + [t])| >= |Join(g)|
  {
    if |g| > 0 {
      JoinSnoc(g, t);
    } else {
      assert g + [t] == [t];
    }
  }

  /** A group is closed only when the next token does not fit: each group
      joined with the first token of the group after it is over the threshold. */
  predicate AllOverflow(groups: seq<seq<string>>, threshold: int) {
    forall k :: 0 < k < |groups| ==>
      |groups[k]| > 0 && |Join(groups[k - 1] + [groups[k][0]])| > threshold
  }

  /** The scan's state keeps the overflow of the last closed group: with the
      first token of the open group, or on its own while that group is empty. */
  predicate LastOverflows(lines: seq<seq<string>>, cur: seq<string>, threshold: int) {
    |lines| > 0 ==>
      if |cur| > 0 then |Join(lines[|lines| - 1] + [cur[0]])| > threshold
      else |Join(lines[|lines| - 1])| > threshold
  }

  lemma OverflowSnoc(lines: seq<seq<string>>, g: seq<string>, threshold: int)
    requires AllOverflow(lines, threshold) && |g| > 0
    requires |lines| > 0 ==> |Join(lines[|lines| - 1] + [g[0]])| > threshold
    ensures AllOverflow(lines + [g], threshold)
  {
    var lines' := lines + [g];
    forall k | 0 < k < |lines'|
      ensures |lines'[k]| > 0 && |Join(lines'[k - 1] + [lines'[k][0]])| > threshold
    {
      assert lines'[k - 1] == lines[k - 1];
      if k < |lines| {
        assert lines'[k] == lines[k];
      }
    }
  }

  /** Every group the greedy packer closes overflows with the next group's
      first token. */
  lemma {:induction false} GreedyOverflows(ts: seq<string>, threshold: int, maxLines: int,
                                           lines: seq<seq<string>>, cur: seq<string>)
    requires AllOverflow(lines, threshold) && LastOverflows(lines, cur, threshold)
    ensures AllOverflow(Greedy(ts, threshold, maxLines, lines, cur), threshold)
    decreases |ts|
  {
    if |ts| == 0 {
      if |cur| > 0 && |lines| < maxLines {
        OverflowSnoc(lines, cur, threshold);
      }
    } else {
      var t := ts[0];
      if |Join(cur + [t])| <= threshold {
        if |lines| > 0 && |cur| == 0 {
          JoinSnocLonger(lines[|lines| - 1], t);
        }
        assert (cur + [t])[0] == if |cur| > 0 then cur[0] else t;
        GreedyOverflows(ts[1..], threshold, maxLines, lines, cur + [t]);
      } else {
        var closed := if |cur| > 0 then cur else [t];
        var open := if |cur| > 0 then [t] else [];
        if |lines| > 0 && |cur| == 0 {
          JoinSnocLonger(lines[|lines| - 1], t);
        }
        OverflowSnoc(lines, closed, threshold);
        assert |cur| == 0 ==> cur + [t] == closed;
        assert LastOverflows(lines + [closed], open, threshold);
        if |lines + [closed]| < maxLines {
          GreedyOverflows(ts[1..], threshold, maxLines, lines + [closed], open);
        }
      }
    }
  }

  /** Each line is its words joined by single spaces, as `' '.join` builds it. */
  predicate SingleSpaced(lines: seq<string>) {
    forall k :: 0 <= k < |lines| ==> lines[k] == Join(Tokenize(lines[k]))
  }

  /** The two lines of a split are each the single-space join of their words. */
  lemma SplitIsSpaced(ts: seq<string>, b: nat)
    requires AllTokens(ts) && 1 <= b < |ts|
    ensures SingleSpaced(SplitAt(ts, b))
  {
    TokenizeJoin(ts[..b]);
    TokenizeJoin(ts[b..]);
  }

  /** Each greedy line is the single-space join of its words. */
  lemma GreedyLinesSpaced(ts: seq<string>, threshold: int, maxLines: int)
    requires AllTokens(ts)
    ensures SingleSpaced(Lines(PrefixSlice(Greedy(ts, threshold, maxLines, [], []), maxLines)))
  {
    var groups := Greedy(ts, threshold, maxLines, [], []);
    GreedyPacked(ts, threshold, maxLines, [], []);
    var kept := PrefixSlice(groups, maxLines);
    assert kept == groups[..|kept|];
    var lines := Lines(kept);
    forall k | 0 <= k < |lines|
      ensures lines[k] == Join(Tokenize(lines[k]))
    {
      assert kept[k] == groups[k] && Packed(groups[k], threshold);
      TokenizeJoin(groups[k]);
    }
  }

  /** Lines that could not take one more word: each line, a space and the
      first word of the next line together exceed the threshold. */
  predicate NextWordOverflows(lines: seq<string>, threshold: int) {
    forall k :: 0 < k < |lines| ==>
      |Tokenize(lines[k])| > 0 && |lines[k - 1] + " " + Tokenize(lines[k])[0]| > threshold
  }

  /** The greedy lines are full: no line could have taken the next line's first word. */
  lemma GreedyLinesOverflow(ts: seq<string>, threshold: int, maxLines: int)
    requires AllTokens(ts)
    ensures NextWordOverflows(Lines(PrefixSlice(Greedy(ts, threshold, maxLines, [], []), maxLines)), threshold)
  {
    var groups := Greedy(ts, threshold, maxLines, [], []);
    GreedyOverflows(ts, threshold, maxLines, [], []);
    GreedyPacked(ts, threshold, maxLines, [], []);
    var kept := PrefixSlice(groups, maxLines);
    assert kept == groups[..|kept|];
    var lines := Lines(kept);
    forall k | 0 < k < |lines|
      ensures |Tokenize(lines[k])| > 0 && |lines[k - 1] + " " + Tokenize(lines[k])[0]| > threshold
    {
      assert kept[k - 1] == groups[k - 1] && kept[k] == groups[k];
      assert Packed(groups[k - 1], threshold) && Packed(groups[k], threshold);
      TokenizeJoin(groups[k]);
      JoinSnoc(groups[k - 1], groups[k][0]);
    }
  }

  /** Greedy lines that fill the line budget before the words run out end
      with a full line: it cannot take the first word left over. */
  lemma GreedyLinesFull(ts: seq<string>, threshold: int, maxLines: int)
    requires AllTokens(ts)
    ensures var lines := Lines(PrefixSlice(Greedy(ts, threshold, maxLines, [], []), maxLines));
            0 < |lines| == maxLines && |TokensOfLines(lines)| < |ts| ==>
              |lines[|lines| - 1] + " " + ts[|TokensOfLines(lines)|]| > threshold
  {
    var groups := Greedy(ts, threshold, maxLines, [], []);
    var kept := PrefixSlice(groups, maxLines);
    if 0 < |kept| == maxLines {
      GreedyBudget(ts, threshold, maxLines, [], []);
      assert kept == groups;
      GreedyPacked(ts, threshold, maxLines, [], []);
      TokensOfGroupLines(groups, threshold);
      GreedyFull(ts, threshold, maxLines, [], []);
      assert Flatten([]) + [] + ts == ts;
      var last := groups[|groups| - 1];
      assert Packed(last, threshold);
      if |Flatten(groups)| < |ts| {
        JoinSnoc(last, ts[|Flatten(groups)|]);
      }
    }
  }

  /** Greedy lines under the line budget hold every word of the input. */
  lemma GreedyLinesComplete(ts: seq<string>, threshold: int, maxLines: int)
    requires AllTokens(ts)
    ensures var lines := Lines(PrefixSlice(Greedy(ts, threshold, maxLines, [], []), maxLines));
            |lines| < maxLines ==> TokensOfLines(lines) == ts
  {
    var groups := Greedy(ts, threshold, maxLines, [], []);
    var kept := PrefixSlice(groups, maxLines);
    if |kept| < maxLines {
      assert kept == groups;
      GreedyComplete(ts, threshold, maxLines, [], []);
      assert Flatten([]) + [] + ts == ts;
      GreedyPacked(ts, threshold, maxLines, [], []);
      TokensOfGroupLines(groups, threshold);
    }
  }

  /** The line strings of token groups. */
  function Lines(groups: seq<seq<string>>): (lines: seq<string>)
    ensures |lines| == |groups|
    ensures forall k :: 0 <= k < |groups| ==> lines[k] == Join(groups[k])
  {
    seq(|groups|, k requires 0 <= k < |groups| => Join(groups[k]))
  }

  lemma {:induction false} FlattenPrefix(groups: seq<seq<string>>, n: nat)
    requires n <= |groups|
    ensures Flatten(groups[..n]) <= Flatten(groups)
    decreases |groups|
  {
    if n < |groups| {
      var front := groups[..|groups| - 1];
      assert front[..n] == groups[..n];
      FlattenPrefix(front, n);
    } else {
      assert groups[..n] == groups;
    }
  }

  lemma {:induction false} FlattenMember(groups: seq<seq<string>>, k: nat, j: nat)
    requires k < |groups| && j < |groups[k]|
    ensures groups[k][j] in Flatten(groups)
    decreases |groups|
  {
    if k < |groups| - 1 {
      FlattenMember(groups[..|groups| - 1], k, j);
    }
  }

  /** The greedy mode's lines: at most `max(0, maxLines)` of them (Python's
      final `lines[:max_lines]`), each within the threshold or a single token. */
  function GreedyLines(ts: seq<string>, threshold: int, maxLines: int): (lines: seq<string>)
    requires AllTokens(ts)
    ensures |lines| <= Max(0, maxLines)
    ensures forall k :: 0 <= k < |lines| ==> |lines[k]| <= threshold || lines[k] in ts
    ensures |lines| < maxLines ==> TokensOfLines(lines) == ts
    ensures NextWordOverflows(lines, threshold)
    ensures 0 < |lines| == maxLines && |TokensOfLines(lines)| < |ts| ==>
      |lines[|lines| - 1] + " " + ts[|TokensOfLines(lines)|]| > threshold
    ensures SingleSpaced(lines)
  {
    GreedyLinesFit(ts, threshold, maxLines);
    GreedyLinesSpaced(ts, threshold, maxLines);
    GreedyLinesFull(ts, threshold, maxLines);
    GreedyLinesOverflow(ts, threshold, maxLines);
    GreedyLinesComplete(ts, threshold, maxLines);
    Lines(PrefixSlice(Greedy(ts, threshold, maxLines, [], []), maxLines))
  }

  /** Each greedy line fits the threshold or is a single token, and there
      are at most `max(0, maxLines)` of them. */
  lemma GreedyLinesFit(ts: seq<string>, threshold: int, maxLines: int)
    requires AllTokens(ts)
    ensures var lines := Lines(PrefixSlice(Greedy(ts, threshold, maxLines, [], []), maxLines));
            && |lines| <= Max(0, maxLines)
            && forall k :: 0 <= k < |lines| ==> |lines[k]| <= threshold || lines[k] in ts
  {
    var groups := Greedy(ts, threshold, maxLines, [], []);
    GreedyPacks(ts, threshold, maxLines, [], []);
    assert Flatten(groups) <= ts by {
      assert Flatten([]) + [] + ts == ts;
    }
    var kept := PrefixSlice(groups, maxLines);
    assert kept == groups[..|kept|];
    var lines := Lines(kept);
    forall k | 0 <= k < |lines|
      ensures |lines[k]| <= threshold || lines[k] in ts
    {
      assert kept[k] == groups[k] && Packed(groups[k], threshold);
      if |groups[k]| == 1 {
        FlattenMember(groups, k, 0);
        assert lines[k] == groups[k][0];
      }
    }
  }

  /** `_optimal_line_break(text, char_threshold, max_lines)`. */
  function OptimalLineBreak(text: string, threshold: int, maxLines: int): (lines: seq<string>)
    ensures |Tokenize(text)| <= 1 ==> lines == [text]
    ensures |Tokenize(text)| >= 2 && maxLines == 2 ==>
      |lines| == 2 && lines[0] + " " + lines[1] == Join(Tokenize(text))
    ensures |Tokenize(text)| >= 2 && maxLines != 2 ==>
      && |lines| <= Max(0, maxLines)
      && (forall k :: 0 <= k < |lines| ==> |lines[k]| <= threshold || lines[k] in Tokenize(text))
      && (|lines| < maxLines ==> TokensOfLines(lines) == Tokenize(text))
      && NextWordOverflows(lines, threshold)
      && (0 < |lines| == maxLines && |TokensOfLines(lines)| < |Tokenize(text)| ==>
            |lines[|lines| - 1] + " " + Tokenize(text)[|TokensOfLines(lines)|]| > threshold)
    ensures |Tokenize(text)| >= 2 ==> SingleSpaced(lines)
  {
    var ts := Tokenize(text);
    if |ts| <= 1 then [text]
    else if maxLines == 2 then
      SplitIsSpaced(ts, BreakPoint(ts, threshold));
      SplitAt(ts, BreakPoint(ts, threshold))
    else GreedyLines(ts, threshold, maxLines)
  }

  /** Prefix joins grow with the prefix when no token is empty. */
  lemma {:induction false} JoinPrefixMonotone(ts: seq<string>, j: nat, b: nat)
    requires 1 <= j <= b <= |ts|
    requires forall k :: 0 <= k < |ts| ==> |ts[k]| > 0
    ensures |Join(ts[..j])| <= |Join(ts[..b])|
    decreases b - j
  {
    if j < b {
      JoinPrefixStep(ts, b - 1);
      JoinPrefixMonotone(ts, j, b - 1);
    }
  }

  /** The two-line mode packs the first line as full as the threshold allows:
      when some split fits, the first line fits and is at least as long as
      every fitting first line; when none fits, the tokens are split in half. */
  lemma TwoLineBreakIsMaximal(text: string, threshold: int)
    requires |Tokenize(text)| >= 2
    ensures var ts := Tokenize(text);
            var lines := OptimalLineBreak(text, threshold, 2);
            && |lines| == 2
            && ((exists j :: 1 <= j < |ts| && Fits(ts, threshold, j)) ==>
                  && |lines[0]| <= threshold
                  && forall j :: 1 <= j < |ts| && Fits(ts, threshold, j) ==> |Join(ts[..j])| <= |lines[0]|)
            && ((forall j :: 1 <= j < |ts| ==> !Fits(ts, threshold, j)) ==>
                  lines == [Join(ts[..|ts| / 2]), Join(ts[|ts| / 2..])])
  {
    var ts := Tokenize(text);
    var lines := OptimalLineBreak(text, threshold, 2);
    var b := LastFit(ts, threshold, |ts| - 1);
    if b > 0 {
      assert lines == [Join(ts[..b]), Join(ts[b..])];
      forall j | 1 <= j < |ts| && Fits(ts, threshold, j)
        ensures |Join(ts[..j])| <= |lines[0]|
      {
        assert IsToken(ts[0]);
        JoinPrefixMonotone(ts, j, b);
      }
    }
  }

  /** The words of a list of lines, in order. */
  function TokensOfLines(lines: seq<string>): seq<string> {
    if |lines| == 0 then [] else TokensOfLines(lines[..|lines| - 1]) + Tokenize(lines[|lines| - 1])
  }

  lemma {:induction false} TokensOfGroupLines(groups: seq<seq<string>>, threshold: int)
    requires AllPacked(groups, threshold)
    ensures TokensOfLines(Lines(groups)) == Flatten(groups)
    decreases |groups|
  {
    if |groups| > 0 {
      var front := groups[..|groups| - 1];
      assert Lines(groups)[..|groups| - 1] == Lines(front);
      TokensOfGroupLines(front, threshold);
      TokenizeJoin(groups[|groups| - 1]);
    }
  }

  /** Line breaking never reorders or invents words: re-tokenizing the lines
      gives a prefix of the text's tokens, and all of them except in the
      greedy mode, which silently drops the words past its line budget. */
  lemma LineBreakKeepsWordOrder(text: string, threshold: int, maxLines: int)
    ensures TokensOfLines(OptimalLineBreak(text, threshold, maxLines)) <= Tokenize(text)
    ensures maxLines == 2 || |Tokenize(text)| <= 1 ==>
              TokensOfLines(OptimalLineBreak(text, threshold, maxLines)) == Tokenize(text)
  {
    var ts := Tokenize(text);
    if |ts| <= 1 {
      assert OptimalLineBreak(text, threshold, maxLines)[..0] == [];
    } else if maxLines == 2 {
      TwoLinesKeepWords(text, threshold);
    } else {
      GreedyKeepsWordOrder(text, threshold, maxLines);
    }
  }

  /** The two lines of the two-line mode hold exactly the text's tokens. */
  lemma TwoLinesKeepWords(text: string, threshold: int)
    requires |Tokenize(text)| >= 2
    ensures TokensOfLines(OptimalLineBreak(text, threshold, 2)) == Tokenize(text)
  {
    var ts := Tokenize(text);
    var lines := OptimalLineBreak(text, threshold, 2);
    var b := BreakPoint(ts, threshold);
    assert lines == [Join(ts[..b]), Join(ts[b..])];
    assert lines[..1] == [Join(ts[..b])];
    assert lines[..1][..0] == [];
    TokenizeJoin(ts[..b]);
    TokenizeJoin(ts[b..]);
    assert ts == ts[..b] + ts[b..];
    assert TokensOfLines(lines[..1]) == TokensOfLines([]) + Tokenize(lines[0]);
    assert TokensOfLines(lines) == TokensOfLines(lines[..1]) + Tokenize(lines[1]);
  }

  /** The greedy mode's lines hold a prefix of the text's tokens. */
  lemma GreedyKeepsWordOrder(text: string, threshold: int, maxLines: int)
    requires |Tokenize(text)| >= 2 && maxLines != 2
    ensures TokensOfLines(OptimalLineBreak(text, threshold, maxLines)) <= Tokenize(text)
  {
    var ts := Tokenize(text);
    assert OptimalLineBreak(text, threshold, maxLines) == GreedyLines(ts, threshold, maxLines);
    GreedyLinesPrefix(ts, threshold, maxLines);
  }

  lemma GreedyLinesPrefix(ts: seq<string>, threshold: int, maxLines: int)
    requires AllTokens(ts)
    ensures TokensOfLines(GreedyLines(ts, threshold, maxLines)) <= ts
  {
    var groups := Greedy(ts, threshold, maxLines, [], []);
    GreedyPacks(ts, threshold, maxLines, [], []);
    assert Flatten(groups) <= ts by {
      assert Flatten([]) + [] + ts == ts;
    }
    var kept := PrefixSlice(groups, maxLines);
    assert kept == groups[..|kept|];
    assert GreedyLines(ts, threshold, maxLines) == Lines(kept);
    TokensOfGroupLines(kept, threshold);
    FlattenPrefix(groups, |kept|);
  }

  /** The worked example: "Alice, Bob Carter" with threshold 10 puts the
      ten-character "Alice, Bob" on the first line rather than "Alice,". */
  lemma BreakExample()
    ensures OptimalLineBreak("Alice, Bob Carter", 10, 2) == ["Alice, Bob", "Carter"]
  {
    var ts := ["Alice,", "Bob", "Carter"];
    assert AllTokens(ts) by {
      assert "Alice,"[..5] == "Alice";
      assert IsWord("Alice");
      assert IsToken(ts[0]) && IsToken(ts[1]) && IsToken(ts[2]);
    }
    var first := ts[..2];
    assert first == ["Alice,", "Bob"];
    assert first[..1] == ["Alice,"];
    assert Join(first) == "Alice, Bob";
    assert Join(ts) == "Alice, Bob" + " " + "Carter";
    assert "Alice, Bob" + " " + "Carter" == "Alice, Bob Carter";
    TokenizeJoin(ts);
    assert Tokenize("Alice, Bob Carter") == ts;
    assert Fits(ts, 10, 2);
    assert LastFit(ts, 10, 2) == 2;
    assert ts[2..] == ["Carter"];
  }
}
