/**
 * The neighbour continuity tests: does the fine token before (after) fine
 * token `cur` end (start) on the same coarse token `tokNum`? A split coarse
 * token shows up as adjacent fine tokens that share its index.
 */
module Neighbours {
  import opened Wrappers

  /** For each fine token, in order, the coarse token indices it overlaps. */
  type Alignment = seq<seq<nat>>

  /**
   * `next_token_is_same`: false for the last fine token (and beyond it);
   * otherwise whether the FIRST coarse index of the next entry is `tokNum`.
   * `None` when that entry is empty, where `tokens[next_idx][0]` raises.
   */
  function NextTokenIsSame(tokens: Alignment, cur: nat, tokNum: nat): (r: Option<bool>)
    ensures r.None? <==> cur + 1 < |tokens| && tokens[cur + 1] == []
    ensures r == Some(true) <==> cur + 1 < |tokens| && tokens[cur + 1] != [] && tokens[cur + 1][0] == tokNum
  {
    if cur >= |tokens| - 1 then Some(false)
    else if tokens[cur + 1] == [] then None
    else Some(tokNum == tokens[cur + 1][0])
  }

  /**
   * `prev_token_is_same`: false for the first fine token; otherwise whether
   * the LAST coarse index of the previous entry is `tokNum`. `None` when that
   * entry is empty or missing, where `tokens[prev_idx][-1]` raises.
   */
  function PrevTokenIsSame(tokens: Alignment, cur: nat, tokNum: nat): (r: Option<bool>)
    ensures r.None? <==> 0 < cur && (|tokens| < cur || tokens[cur - 1] == [])
    ensures r == Some(true) <==> 0 < cur <= |tokens| && tokens[cur - 1] != [] && Last(tokens[cur - 1]) == tokNum
  {
    if cur == 0 then Some(false)
    else if |tokens| < cur || tokens[cur - 1] == [] then None
    else Some(tokNum == Last(tokens[cur - 1]))
  }

  /** Python's `entry[-1]`. */
  function Last(entry: seq<nat>): nat
    requires entry != []
  {
    entry[|entry| - 1]
  }

  /**
   * Fine tokens follow the coarse tokens left to right: every entry is
   * sorted and no index of an earlier entry exceeds one of a later entry.
   */
  ghost predicate Monotone(tokens: Alignment)
  {
    forall i, j, a, b ::
      0 <= i <= j < |tokens| && 0 <= a < |tokens[i]| && 0 <= b < |tokens[j]| && (i < j || a <= b)
      ==> tokens[i][a] <= tokens[j][b]
  }

  /**
   * On a monotone alignment, testing only the first index of the next entry
   * loses nothing: it is `tokNum` exactly when the next fine token overlaps
   * coarse token `tokNum` at all.
   */
  lemma NextSameIffShared(tokens: Alignment, cur: nat, tokNum: nat)
    requires Monotone(tokens)
    requires cur + 1 < |tokens| && tokens[cur + 1] != [] && tokNum in tokens[cur]
    ensures NextTokenIsSame(tokens, cur, tokNum) == Some(tokNum in tokens[cur + 1])
  {
    var next := tokens[cur + 1];
    var a :| 0 <= a < |tokens[cur]| && tokens[cur][a] == tokNum;
    assert tokNum <= next[0] by {
      assert tokens[cur][a] <= tokens[cur + 1][0];
    }
    if tokNum in next {
      var b :| 0 <= b < |next| && next[b] == tokNum;
      assert tokens[cur + 1][0] <= tokens[cur + 1][b];
    }
  }

  /**
   * Symmetrically, testing only the last index of the previous entry is
   * enough: it is `tokNum` exactly when the previous fine token overlaps
   * coarse token `tokNum` at all.
   */
  lemma PrevSameIffShared(tokens: Alignment, cur: nat, tokNum: nat)
    requires Monotone(tokens)
    requires 0 < cur < |tokens| && tokens[cur - 1] != [] && tokNum in tokens[cur]
    ensures PrevTokenIsSame(tokens, cur, tokNum) == Some(tokNum in tokens[cur - 1])
  {
    var prev := tokens[cur - 1];
    var b :| 0 <= b < |tokens[cur]| && tokens[cur][b] == tokNum;
    assert Last(prev) <= tokNum by {
      assert tokens[cur - 1][|prev| - 1] <= tokens[cur][b];
    }
    if tokNum in prev {
      var a :| 0 <= a < |prev| && prev[a] == tokNum;
      assert tokens[cur - 1][a] <= tokens[cur - 1][|prev| - 1];
    }
  }
}
