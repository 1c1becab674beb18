/** The comment-fetching lambda of the quiz: the fetched rows are shuffled,
    split into positive and other comments, and regrouped into blocks of
    4 positive and 6 other comments, each block shuffled again; leftovers
    follow. The response lists the rows without their status.

    Every `random.shuffle` is a `Util.Shuffle` driven by picks that are
    parameters: `picks` for the whole table, `blockPicks[b]` for block `b`. */
module CommentBatching {
  import opened Util

  /** A row of the comment table: id, text, fake user name, status. */
  datatype Comment = Comment(id: int, text: string, fakeUser: string, status: string)

  /** A comment as the response shows it: no status. */
  datatype CommentView = CommentView(id: int, text: string, fakeName: string)

  /** The exact comparison the split uses: no stripping. */
  predicate IsPositive(c: Comment) { c.status == "positive" }

  function View(c: Comment): CommentView { CommentView(c.id, c.text, c.fakeUser) }

  function Positives(rows: seq<Comment>): seq<Comment> { Filter(rows, IsPositive, true) }

  function Others(rows: seq<Comment>): seq<Comment> { Filter(rows, IsPositive, false) }

  /** The two groups split the rows: together a rearrangement of them, the
      first holding exactly the positive rows and the second the rest, each
      in the order the rows came. */
  lemma SplitIsPartition(rows: seq<Comment>)
    ensures multiset(Positives(rows)) + multiset(Others(rows)) == multiset(rows)
    ensures |Positives(rows)| == CountIf(rows, IsPositive)
    ensures |Positives(rows)| + |Others(rows)| == |rows|
    ensures forall k :: 0 <= k < |Positives(rows)| ==> IsPositive(Positives(rows)[k])
    ensures forall k :: 0 <= k < |Others(rows)| ==> !IsPositive(Others(rows)[k])
    ensures Embeds(FilterIndices(rows, IsPositive, true), Positives(rows), rows)
    ensures Embeds(FilterIndices(rows, IsPositive, false), Others(rows), rows)
  {
    FilterPartition(rows, IsPositive);
    FilterCount(rows, IsPositive);
  }

  /** How many blocks the loop emits: one more for as long as at least 4
      positive and 6 other comments are left. */
  function NumBlocks(positives: nat, others: nat): (nb: nat)
    ensures 4 * nb <= positives && 6 * nb <= others
    ensures positives - 4 * nb < 4 || others - 6 * nb < 6
  {
    if positives >= 4 && others >= 6 then 1 + NumBlocks(positives - 4, others - 6) else 0
  }

  /** The loop count in closed form. */
  lemma {:induction false} NumBlocksClosedForm(positives: nat, others: nat)
    ensures NumBlocks(positives, others) == Min(positives / 4, others / 6)
  {
    if positives >= 4 && others >= 6 {
      NumBlocksClosedForm(positives - 4, others - 6);
      assert (positives - 4) / 4 == positives / 4 - 1;
      assert (others - 6) / 6 == others / 6 - 1;
    }
  }

  /** The block loop and the leftovers appended after it. */
  function BuildBlocks(pos: seq<Comment>, oth: seq<Comment>, blockPicks: seq<seq<nat>>): (r: seq<Comment>)
    ensures |r| == |pos| + |oth|
    decreases |pos|
  {
    if |pos| >= 4 && |oth| >= 6 then
      var picks := if |blockPicks| > 0 then blockPicks[0] else [];
      var rest := if |blockPicks| > 0 then blockPicks[1..] else [];
      Shuffle(pos[..4] + oth[..6], picks) + BuildBlocks(pos[4..], oth[6..], rest)
    else
      pos + oth
  }

  /** Building blocks only rearranges the two groups. */
  lemma {:induction false} BuildBlocksPermutes(pos: seq<Comment>, oth: seq<Comment>, blockPicks: seq<seq<nat>>)
    ensures multiset(BuildBlocks(pos, oth, blockPicks)) == multiset(pos) + multiset(oth)
    decreases |pos|
  {
    if |pos| >= 4 && |oth| >= 6 {
      var rest := if |blockPicks| > 0 then blockPicks[1..] else [];
      BuildBlocksPermutes(pos[4..], oth[6..], rest);
      assert pos == pos[..4] + pos[4..];
      assert oth == oth[..6] + oth[6..];
    }
  }

  /** One iteration of the loop emits a shuffled block of ten ... */
  lemma BuildBlocksHead(pos: seq<Comment>, oth: seq<Comment>, blockPicks: seq<seq<nat>>)
    requires |pos| >= 4 && |oth| >= 6
    ensures var picks := if |blockPicks| > 0 then blockPicks[0] else [];
      BuildBlocks(pos, oth, blockPicks)[..10] == Shuffle(pos[..4] + oth[..6], picks)
  {
  }

  /** ... and then continues on what is left. */
  lemma BuildBlocksTail(pos: seq<Comment>, oth: seq<Comment>, blockPicks: seq<seq<nat>>)
    requires |pos| >= 4 && |oth| >= 6
    ensures var rest := if |blockPicks| > 0 then blockPicks[1..] else [];
      BuildBlocks(pos, oth, blockPicks)[10..] == BuildBlocks(pos[4..], oth[6..], rest)
  {
  }

  /** The leftovers come last, positives first; `NumBlocks` says they
      are too few for another block. */
  lemma {:induction false} BlocksLeaveRemainder(pos: seq<Comment>, oth: seq<Comment>, blockPicks: seq<seq<nat>>, nb: nat)
    requires nb == NumBlocks(|pos|, |oth|)
    ensures BuildBlocks(pos, oth, blockPicks)[10 * nb..] == pos[4 * nb..] + oth[6 * nb..]
    decreases nb
  {
    var r := BuildBlocks(pos, oth, blockPicks);
    if nb == 0 {
      assert r == pos + oth;
      assert r[10 * nb..] == r && pos[4 * nb..] == pos && oth[6 * nb..] == oth;
    } else {
      assert |pos| >= 4 && |oth| >= 6;
      var rest := if |blockPicks| > 0 then blockPicks[1..] else [];
      var tail := BuildBlocks(pos[4..], oth[6..], rest);
      var m := nb - 1;
      assert m == NumBlocks(|pos[4..]|, |oth[6..]|);
      assert r[10..] == tail by {
        BuildBlocksTail(pos, oth, blockPicks);
      }
      assert tail[10 * m..] == pos[4..][4 * m..] + oth[6..][6 * m..] by {
        BlocksLeaveRemainder(pos[4..], oth[6..], rest, m);
      }
      assert r[10 * nb..] == tail[10 * m..] by {
        assert 10 * nb - 10 == 10 * m;
        DropShift(r, tail, 10, 10 * nb);
      }
      assert pos[4 * nb..] == pos[4..][4 * m..] by {
        assert 4 * nb - 4 == 4 * m;
        DropShift(pos, pos[4..], 4, 4 * nb);
      }
      assert oth[6 * nb..] == oth[6..][6 * m..] by {
        assert 6 * nb - 6 == 6 * m;
        DropShift(oth, oth[6..], 6, 6 * nb);
      }
    }
  }

  /** Splitting a group in two keeps it all positive (or all other). */
  lemma SplitGroup(s: seq<Comment>, i: nat)
    requires i <= |s|
    ensures CountIf(s, IsPositive) == |s| ==>
      CountIf(s[..i], IsPositive) == i && CountIf(s[i..], IsPositive) == |s| - i
    ensures CountIf(s, IsPositive) == 0 ==>
      CountIf(s[..i], IsPositive) == 0 && CountIf(s[i..], IsPositive) == 0
  {
    assert s == s[..i] + s[i..];
    CountIfConcat(s[..i], s[i..], IsPositive);
  }

  lemma FirstBlockBalanced(pos: seq<Comment>, oth: seq<Comment>, blockPicks: seq<seq<nat>>)
    requires CountIf(pos, IsPositive) == |pos| && CountIf(oth, IsPositive) == 0
    requires |pos| >= 4 && |oth| >= 6
    ensures CountIf(BuildBlocks(pos, oth, blockPicks)[..10], IsPositive) == 4
  {
    var picks := if |blockPicks| > 0 then blockPicks[0] else [];
    var block := pos[..4] + oth[..6];
    BuildBlocksHead(pos, oth, blockPicks);
    SplitGroup(pos, 4);
    SplitGroup(oth, 6);
    ShuffleKeepsCount(block, picks, IsPositive);
    CountIfConcat(pos[..4], oth[..6], IsPositive);
  }

  /** Block `b` of the output holds exactly 4 positive and 6 other comments
      when the groups were split by status. */
  lemma {:induction false} BlockBalanced(pos: seq<Comment>, oth: seq<Comment>, blockPicks: seq<seq<nat>>, nb: nat, b: nat)
    requires CountIf(pos, IsPositive) == |pos| && CountIf(oth, IsPositive) == 0
    requires nb == NumBlocks(|pos|, |oth|) && b < nb
    ensures 10 * (b + 1) <= |BuildBlocks(pos, oth, blockPicks)|
    ensures CountIf(BuildBlocks(pos, oth, blockPicks)[10 * b..10 * (b + 1)], IsPositive) == 4
    decreases b
  {
    var r := BuildBlocks(pos, oth, blockPicks);
    if b == 0 {
      FirstBlockBalanced(pos, oth, blockPicks);
      assert r[10 * b..10 * (b + 1)] == r[..10];
    } else {
      var rest := if |blockPicks| > 0 then blockPicks[1..] else [];
      var m := b - 1;
      assert |pos| >= 4 && |oth| >= 6 && nb - 1 == NumBlocks(|pos[4..]|, |oth[6..]|);
      var tail := BuildBlocks(pos[4..], oth[6..], rest);
      assert CountIf(pos[4..], IsPositive) == |pos[4..]| && CountIf(oth[6..], IsPositive) == 0 by {
        SplitGroup(pos, 4);
        SplitGroup(oth, 6);
      }
      assert 10 * (m + 1) <= |tail| && CountIf(tail[10 * m..10 * (m + 1)], IsPositive) == 4 by {
        BlockBalanced(pos[4..], oth[6..], rest, nb - 1, m);
      }
      assert r[10..] == tail by {
        BuildBlocksTail(pos, oth, blockPicks);
      }
      BlockOfSuffix(r, tail, b);
    }
  }

  /** Block `b` of a list is block `b - 1` of what follows its first block. */
  lemma BlockOfSuffix(r: seq<Comment>, tail: seq<Comment>, b: nat)
    requires 1 <= b && 10 * (b + 1) <= |r| && r[10..] == tail
    ensures r[10 * b..10 * (b + 1)] == tail[10 * (b - 1)..10 * b]
  {
    SliceShift(r, 10, 10 * b, 10 * (b + 1));
  }

  /** The list the lambda builds (`shuffled_comments`). */
  function BalancedOrder(rows: seq<Comment>, picks: seq<nat>, blockPicks: seq<seq<nat>>): (r: seq<Comment>)
    ensures multiset(r) == multiset(rows)
    ensures |r| == |rows|
  {
    var shuffled := Shuffle(rows, picks);
    SplitIsPartition(shuffled);
    BuildBlocksPermutes(Positives(shuffled), Others(shuffled), blockPicks);
    BuildBlocks(Positives(shuffled), Others(shuffled), blockPicks)
  }

  /** The balanced list starts with `min(#positive div 4, #other div 6)`
      blocks of 10 rows, each with exactly 4 positive rows. */
  lemma BalancedOrderBlocks(rows: seq<Comment>, picks: seq<nat>, blockPicks: seq<seq<nat>>, b: nat)
    requires b < NumBlocks(CountIf(rows, IsPositive), |rows| - CountIf(rows, IsPositive))
    ensures 10 * (b + 1) <= |BalancedOrder(rows, picks, blockPicks)|
    ensures CountIf(BalancedOrder(rows, picks, blockPicks)[10 * b..10 * (b + 1)], IsPositive)
      == 4
  {
    var shuffled := Shuffle(rows, picks);
    SplitIsPartition(shuffled);
    ShuffleKeepsCount(rows, picks, IsPositive);
    CountIfUniform(Positives(shuffled), IsPositive);
    CountIfUniform(Others(shuffled), IsPositive);
    BlockBalanced(Positives(shuffled), Others(shuffled), blockPicks, NumBlocks(|Positives(shuffled)|, |Others(shuffled)|), b);
  }

  /** The response body as written: the shuffled table itself, mapped to
      views, so it has the rows' length and is a rearrangement of them. */
  function GetComments(rows: seq<Comment>, picks: seq<nat>): (r: seq<CommentView>)
    ensures |r| == |rows|
    ensures multiset(r) == multiset(MapSeq(rows, View))
    ensures forall k :: 0 <= k < |r| ==> r[k] == View(Shuffle(rows, picks)[k])
  {
    ShuffleCommutesWithMap(rows, picks, View);
    MapSeq(Shuffle(rows, picks), View)
  }

  /** Twelve other comments followed by eight positive ones. */
  predicate Lopsided(rows: seq<Comment>) {
    && |rows| == 20
    && (forall k :: 0 <= k < 12 ==> !IsPositive(rows[k]))
    && (forall k :: 12 <= k < 20 ==> IsPositive(rows[k]))
  }

  lemma LopsidedCount(rows: seq<Comment>)
    requires Lopsided(rows)
    ensures CountIf(rows, IsPositive) == 8
    ensures NumBlocks(CountIf(rows, IsPositive), |rows| - CountIf(rows, IsPositive)) == 2
  {
    assert rows == rows[..12] + rows[12..];
    CountIfConcat(rows[..12], rows[12..], IsPositive);
    CountIfUniform(rows[..12], IsPositive);
    CountIfUniform(rows[12..], IsPositive);
  }

  /** The served list ignores the blocks: on such a table with the
      identity shuffle its first ten entries are ten other comments, while
      the balanced list built in the same call has four positive comments
      among its first ten. */
  lemma ResponseIgnoresBlocks(rows: seq<Comment>, blockPicks: seq<seq<nat>>)
    requires Lopsided(rows)
    ensures NumBlocks(CountIf(rows, IsPositive), |rows| - CountIf(rows, IsPositive)) == 2
    ensures forall k :: 0 <= k < 10 ==> GetComments(rows, [])[k] == View(rows[k]) && !IsPositive(rows[k])
    ensures CountIf(BalancedOrder(rows, [], blockPicks)[..10], IsPositive) == 4
  {
    ShuffleNoPicks(rows);
    LopsidedCount(rows);
    BalancedOrderBlocks(rows, [], blockPicks, 0);
    var order := BalancedOrder(rows, [], blockPicks);
    assert order[10 * 0..10 * (0 + 1)] == order[..10];
  }

  /** The response the lambda evidently means to serve: the balanced list,
      mapped to views. */
  function GetBalancedComments(rows: seq<Comment>, picks: seq<nat>, blockPicks: seq<seq<nat>>): (r: seq<CommentView>)
    ensures |r| == |rows|
    ensures forall k :: 0 <= k < |r| ==> r[k] == View(BalancedOrder(rows, picks, blockPicks)[k])
  {
    MapSeq(BalancedOrder(rows, picks, blockPicks), View)
  }

  /** The corrected response serves every row once and starts with the
      balanced blocks. */
  lemma BalancedResponse(rows: seq<Comment>, picks: seq<nat>, blockPicks: seq<seq<nat>>, b: nat)
    requires b < NumBlocks(CountIf(rows, IsPositive), |rows| - CountIf(rows, IsPositive))
    ensures multiset(GetBalancedComments(rows, picks, blockPicks)) == multiset(MapSeq(rows, View))
    ensures CountIf(BalancedOrder(rows, picks, blockPicks)[10 * b..10 * (b + 1)], IsPositive)
      == 4
  {
    var order := BalancedOrder(rows, picks, blockPicks);
    BalancedOrderBlocks(rows, picks, blockPicks, b);
    MapMultiset(order, rows, View);
  }
}
