/**
 * What the realigner promises about entity spans when every fine token
 * overlaps exactly one coarse token: unsplit tags are copied, the fragments
 * of one split coarse token are re-kinded as one entity would be, and a
 * well-formed BILOU sequence stays well-formed. Nothing here holds for
 * arbitrary alignments: the code checks neither monotonicity nor coverage.
 */
module Spans {
  import opened Wrappers
  import opened Tags
  import opened Neighbours
  import opened Rewrite
  import opened Realigner
  import opened Reference

  /** With singleton entries, fine token `i` emits the outcome of its one coarse index. */
  lemma SingletonOutput(tokens: Alignment, spacyTags: seq<string>)
    requires Singletons(tokens)
    ensures var r := Realign(tokens, spacyTags);
      && (r.Some? <==> forall i :: 0 <= i < |tokens| ==> Outcome(tokens, spacyTags, Pair(i, tokens[i][0])).Some?)
      && (r.Some? ==>
            && |r.value| == |tokens|
            && forall i :: 0 <= i < |tokens| ==> Some(r.value[i]) == Outcome(tokens, spacyTags, Pair(i, tokens[i][0])))
  {
    RealignIsExpected(tokens, spacyTags);
    SingletonPairs(tokens);
  }

  /** Whether fine tokens `i - 1` and `i` share their coarse token. */
  predicate SameAsPrev(tokens: Alignment, i: nat)
    requires Singletons(tokens) && i < |tokens|
  {
    0 < i && tokens[i - 1][0] == tokens[i][0]
  }

  /** Whether fine tokens `i` and `i + 1` share their coarse token. */
  predicate SameAsNext(tokens: Alignment, i: nat)
    requires Singletons(tokens) && i < |tokens|
  {
    i + 1 < |tokens| && tokens[i + 1][0] == tokens[i][0]
  }

  /**
   * Unsplit input: when no two adjacent fine tokens share a coarse token,
   * every fine token gets its coarse token's tag unchanged, whatever the tags.
   */
  lemma UnsplitKeepsTags(tokens: Alignment, spacyTags: seq<string>)
    requires Singletons(tokens)
    requires forall i :: 0 <= i < |tokens| ==> tokens[i][0] < |spacyTags|
    requires forall i :: 0 < i < |tokens| ==> tokens[i - 1][0] != tokens[i][0]
    ensures Realign(tokens, spacyTags) == Some(seq(|tokens|, i requires 0 <= i < |tokens| => spacyTags[tokens[i][0]]))
  {
    SingletonOutput(tokens, spacyTags);
    forall i | 0 <= i < |tokens|
      ensures Outcome(tokens, spacyTags, Pair(i, tokens[i][0])) == Some(spacyTags[tokens[i][0]])
    {
      UnsplitOutcome(tokens, spacyTags, i);
    }
    var r := Realign(tokens, spacyTags);
    assert r.Some?;
    assert r.value == seq(|tokens|, i requires 0 <= i < |tokens| => spacyTags[tokens[i][0]]);
  }

  /** One fine token whose neighbours lie on other coarse tokens keeps its coarse tag. */
  lemma UnsplitOutcome(tokens: Alignment, spacyTags: seq<string>, i: nat)
    requires Singletons(tokens) && i < |tokens| && tokens[i][0] < |spacyTags|
    requires 0 < i ==> tokens[i - 1][0] != tokens[i][0]
    requires i + 1 < |tokens| ==> tokens[i][0] != tokens[i + 1][0]
    ensures Outcome(tokens, spacyTags, Pair(i, tokens[i][0])) == Some(spacyTags[tokens[i][0]])
  {
    assert PrevTokenIsSame(tokens, i, tokens[i][0]) == Some(false);
    assert NextTokenIsSame(tokens, i, tokens[i][0]) == Some(false);
  }

  /** The alignment of a tokenisation to itself: fine token `i` is coarse token `i`. */
  function Identity(n: nat): (tokens: Alignment)
    ensures |tokens| == n && Singletons(tokens)
    ensures forall i :: 0 <= i < n ==> tokens[i] == [i]
  {
    seq(n, i requires 0 <= i < n => [i])
  }

  /** No split at all: the identity alignment returns the coarse tags themselves. */
  lemma IdentityKeepsTags(spacyTags: seq<string>)
    ensures Realign(Identity(|spacyTags|), spacyTags) == Some(spacyTags)
  {
    var tokens := Identity(|spacyTags|);
    UnsplitKeepsTags(tokens, spacyTags);
    assert seq(|tokens|, i requires 0 <= i < |tokens| => spacyTags[tokens[i][0]]) == spacyTags;
  }

  /** A well-formed tag: `O`, or `<k>-<label>` with `k` one of B, I, L, U and a non-empty label without '-'. */
  predicate IsTag(t: string)
  {
    || t == Outside
    || (&& |t| >= 3
        && (t[0] == 'B' || t[0] == 'I' || t[0] == 'L' || t[0] == 'U')
        && t[1] == '-'
        && '-' !in t[2..])
  }

  /** No entity is open before this tag: it is `O`, a Begin or a Unit. */
  predicate Opens(t: string)
    requires IsTag(t)
  {
    t == Outside || t[0] == 'B' || t[0] == 'U'
  }

  /** No entity is open after this tag: it is `O`, a Last or a Unit. */
  predicate Closes(t: string)
    requires IsTag(t)
  {
    t == Outside || t[0] == 'L' || t[0] == 'U'
  }

  /** `b` may follow `a`: after a closed span a new one may open; an open span continues with its own label. */
  predicate Follows(a: string, b: string)
    requires IsTag(a) && IsTag(b)
  {
    if Closes(a) then Opens(b) else b != Outside && !Opens(b) && a[2..] == b[2..]
  }

  /** A well-formed BILOU sequence: every span begins with B or U, continues with I and ends with L or U, under one label. */
  ghost predicate WellFormed(s: seq<string>)
  {
    && (forall i :: 0 <= i < |s| ==> IsTag(s[i]))
    && (|s| > 0 ==> Opens(s[0]) && Closes(s[|s| - 1]))
    && (forall i :: 0 < i < |s| ==> Follows(s[i - 1], s[i]))
  }

  /**
   * The fine tokens walk the coarse tokens `0 .. m - 1` in order, one coarse
   * token per fine token, each coarse token covered by at least one.
   */
  ghost predicate Covers(tokens: Alignment, m: nat)
  {
    && Singletons(tokens)
    && (tokens == [] <==> m == 0)
    && (tokens != [] ==> tokens[0][0] == 0 && tokens[|tokens| - 1][0] == m - 1)
    && (forall i :: 0 < i < |tokens| ==> tokens[i][0] == tokens[i - 1][0] || tokens[i][0] == tokens[i - 1][0] + 1)
  }

  lemma {:induction false} Ascending(tokens: Alignment, m: nat, i: nat, j: nat)
    requires Covers(tokens, m) && i <= j < |tokens|
    ensures tokens[i][0] <= tokens[j][0]
    decreases j - i
  {
    if i < j {
      Ascending(tokens, m, i, j - 1);
    }
  }

  /** A covering alignment refers only to coarse tokens that exist. */
  lemma CoveredInRange(tokens: Alignment, m: nat)
    requires Covers(tokens, m)
    ensures forall i :: 0 <= i < |tokens| ==> tokens[i][0] < m
  {
    forall i | 0 <= i < |tokens| ensures tokens[i][0] < m {
      Ascending(tokens, m, i, |tokens| - 1);
    }
  }

  /** The well-formed tag `t` on a fragment, re-kinded by the rewrite table. */
  function Refit(t: string, prevSame: bool, nextSame: bool): string
    requires IsTag(t)
  {
    if t == Outside then t else [CorrectedKind(t[0], prevSame, nextSame), '-'] + t[2..]
  }

  /** On a well-formed tag whose neighbours can be consulted, the cleaned tag is the refitted one. */
  lemma CleanTagOnTag(tokens: Alignment, cur: nat, tokNum: nat, t: string, prevSame: bool, nextSame: bool)
    requires IsTag(t)
    requires PrevTokenIsSame(tokens, cur, tokNum) == Some(prevSame)
    requires NextTokenIsSame(tokens, cur, tokNum) == Some(nextSame)
    ensures CleanTag(tokens, cur, tokNum, t) == Some(Refit(t, prevSame, nextSame))
  {
    if t == Outside {
      assert Classify(t) == Other;
    } else {
      var rest := t[2..];
      assert t == [t[0], '-'] + rest;
      CleanTagFollowsTable(tokens, cur, tokNum, t[0], rest, prevSame, nextSame);
      assert Kind(rest) == rest;
    }
  }

  /** Refitting keeps the shape and the label, and changes the kind only where a neighbour shares the coarse token. */
  lemma RefitKind(t: string, prevSame: bool, nextSame: bool)
    requires IsTag(t)
    ensures var f := Refit(t, prevSame, nextSame);
      && IsTag(f)
      && (f == Outside <==> t == Outside)
      && (t != Outside ==> f[2..] == t[2..])
      && (!prevSame ==> (Opens(f) <==> Opens(t)))
      && (!nextSame ==> (Closes(f) <==> Closes(t)))
      && (prevSame && t != Outside ==> !Opens(f))
      && (nextSame && t != Outside ==> !Closes(f))
  {
    if t != Outside {
      var f := Refit(t, prevSame, nextSame);
      assert f[2..] == t[2..];
    }
  }

  /** With singleton entries whose tags are well-formed, fine token `i` emits its tag refitted to its neighbours. */
  lemma SingletonRefit(tokens: Alignment, spacyTags: seq<string>)
    requires Singletons(tokens)
    requires forall i :: 0 <= i < |tokens| ==> tokens[i][0] < |spacyTags| && IsTag(spacyTags[tokens[i][0]])
    ensures var r := Realign(tokens, spacyTags);
      && r.Some? && |r.value| == |tokens|
      && forall i :: 0 <= i < |tokens| ==>
           r.value[i] == Refit(spacyTags[tokens[i][0]], SameAsPrev(tokens, i), SameAsNext(tokens, i))
  {
    SingletonOutput(tokens, spacyTags);
    forall i | 0 <= i < |tokens|
      ensures Outcome(tokens, spacyTags, Pair(i, tokens[i][0]))
        == Some(Refit(spacyTags[tokens[i][0]], SameAsPrev(tokens, i), SameAsNext(tokens, i)))
    {
      CleanTagOnTag(tokens, i, tokens[i][0], spacyTags[tokens[i][0]], SameAsPrev(tokens, i), SameAsNext(tokens, i));
    }
  }

  /**
   * The tag of fragment `pos` (counting from 0) of a coarse token tagged `t`
   * that was split into `count` fine tokens: a Unit gets Begin on the first
   * fragment, Last on the final one and Inside between; a Begin keeps only
   * its first fragment and a Last only its final one, the others becoming
   * Inside; `O` and Inside tags are repeated. The label is kept throughout.
   */
  function SplitFragment(t: string, pos: nat, count: nat): string
    requires IsTag(t) && pos < count
  {
    if t == Outside then t
    else
      var first, final := pos == 0, pos == count - 1;
      var kind :=
        match t[0]
        case 'U' => if first && final then 'U' else if first then 'B' else if final then 'L' else 'I'
        case 'B' => if first then 'B' else 'I'
        case 'L' => if final then 'L' else 'I'
        case _ => 'I';
      [kind, '-'] + t[2..]
  }

  /**
   * The fragments `lo .. hi` of one coarse token (no fine token just outside
   * the run shares it) get the tags of a split entity, fragment by fragment.
   */
  lemma SplitToken(tokens: Alignment, spacyTags: seq<string>, lo: nat, hi: nat)
    requires Singletons(tokens)
    requires forall i :: 0 <= i < |tokens| ==> tokens[i][0] < |spacyTags| && IsTag(spacyTags[tokens[i][0]])
    requires lo <= hi < |tokens|
    requires forall j :: lo <= j <= hi ==> tokens[j][0] == tokens[lo][0]
    requires lo > 0 ==> tokens[lo - 1][0] != tokens[lo][0]
    requires hi + 1 < |tokens| ==> tokens[hi + 1][0] != tokens[lo][0]
    ensures Realign(tokens, spacyTags).Some? && |Realign(tokens, spacyTags).value| == |tokens|
    ensures forall j :: lo <= j <= hi ==>
      Realign(tokens, spacyTags).value[j] == SplitFragment(spacyTags[tokens[lo][0]], j - lo, hi - lo + 1)
  {
    SingletonRefit(tokens, spacyTags);
    var r, t := Realign(tokens, spacyTags).value, spacyTags[tokens[lo][0]];
    forall j | lo <= j <= hi
      ensures r[j] == SplitFragment(t, j - lo, hi - lo + 1)
    {
      InRun(tokens, lo, hi, j);
      RefitIsSplitFragment(t, j - lo, hi - lo + 1);
    }
  }

  /** Inside a run of fragments, a neighbour shares the coarse token exactly when it is in the run. */
  lemma InRun(tokens: Alignment, lo: nat, hi: nat, j: nat)
    requires Singletons(tokens) && lo <= j <= hi < |tokens|
    requires forall k :: lo <= k <= hi ==> tokens[k][0] == tokens[lo][0]
    requires lo > 0 ==> tokens[lo - 1][0] != tokens[lo][0]
    requires hi + 1 < |tokens| ==> tokens[hi + 1][0] != tokens[lo][0]
    ensures tokens[j][0] == tokens[lo][0]
    ensures SameAsPrev(tokens, j) == (j > lo) && SameAsNext(tokens, j) == (j < hi)
  {
  }

  /** The rewrite table, read along a run of fragments, gives the split-entity tags. */
  lemma RefitIsSplitFragment(t: string, pos: nat, count: nat)
    requires IsTag(t) && pos < count
    ensures Refit(t, pos > 0, pos < count - 1) == SplitFragment(t, pos, count)
  {
  }

  /** One step of the well-formedness proof: adjacent fine tokens `i - 1` and `i` follow each other. */
  lemma FollowsAt(tokens: Alignment, spacyTags: seq<string>, i: nat)
    requires WellFormed(spacyTags) && Covers(tokens, |spacyTags|)
    requires forall j :: 0 <= j < |tokens| ==> tokens[j][0] < |spacyTags|
    requires 0 < i < |tokens|
    ensures var c, d := tokens[i - 1][0], tokens[i][0];
      var a, b := Refit(spacyTags[c], SameAsPrev(tokens, i - 1), SameAsNext(tokens, i - 1)),
                  Refit(spacyTags[d], SameAsPrev(tokens, i), SameAsNext(tokens, i));
      IsTag(a) && IsTag(b) && Follows(a, b)
  {
    var c, d := tokens[i - 1][0], tokens[i][0];
    var pa, na, pb, nb := SameAsPrev(tokens, i - 1), SameAsNext(tokens, i - 1), SameAsPrev(tokens, i), SameAsNext(tokens, i);
    RefitKind(spacyTags[c], pa, na);
    RefitKind(spacyTags[d], pb, nb);
    if c != d {
      assert d == c + 1 && 0 < d < |spacyTags|;
      assert Follows(spacyTags[d - 1], spacyTags[d]);
    }
  }

  /** The refitted tag of every fine token, as `SingletonRefit` describes the output. */
  function Refitted(tokens: Alignment, spacyTags: seq<string>): (r: seq<string>)
    requires Singletons(tokens)
    requires forall i :: 0 <= i < |tokens| ==> tokens[i][0] < |spacyTags| && IsTag(spacyTags[tokens[i][0]])
    ensures |r| == |tokens|
    ensures forall i :: 0 <= i < |tokens| ==> r[i] == Refit(spacyTags[tokens[i][0]], SameAsPrev(tokens, i), SameAsNext(tokens, i))
  {
    seq(|tokens|, i requires 0 <= i < |tokens| => Refit(spacyTags[tokens[i][0]], SameAsPrev(tokens, i), SameAsNext(tokens, i)))
  }

  /** Refitting a well-formed sequence along a covering alignment keeps it well-formed. */
  lemma RefittedWellFormed(tokens: Alignment, spacyTags: seq<string>)
    requires WellFormed(spacyTags) && Covers(tokens, |spacyTags|)
    requires forall i :: 0 <= i < |tokens| ==> tokens[i][0] < |spacyTags|
    ensures WellFormed(Refitted(tokens, spacyTags))
  {
    var r := Refitted(tokens, spacyTags);
    var n := |tokens|;
    forall i | 0 <= i < n ensures IsTag(r[i]) {
      RefitKind(spacyTags[tokens[i][0]], SameAsPrev(tokens, i), SameAsNext(tokens, i));
    }
    if n > 0 {
      RefitKind(spacyTags[tokens[0][0]], SameAsPrev(tokens, 0), SameAsNext(tokens, 0));
      RefitKind(spacyTags[tokens[n - 1][0]], SameAsPrev(tokens, n - 1), SameAsNext(tokens, n - 1));
    }
    forall i | 0 < i < n ensures Follows(r[i - 1], r[i]) {
      FollowsAt(tokens, spacyTags, i);
    }
  }

  /**
   * Span well-formedness: a well-formed coarse BILOU sequence, realigned onto
   * fine tokens that walk the coarse tokens in order (each fine token on one
   * coarse token, none skipped), gives a well-formed fine sequence.
   */
  lemma SplitKeepsWellFormed(tokens: Alignment, spacyTags: seq<string>)
    requires WellFormed(spacyTags) && Covers(tokens, |spacyTags|)
    ensures Realign(tokens, spacyTags).Some?
    ensures WellFormed(Realign(tokens, spacyTags).value)
  {
    CoveredInRange(tokens, |spacyTags|);
    SingletonRefit(tokens, spacyTags);
    assert Realign(tokens, spacyTags).value == Refitted(tokens, spacyTags);
    RefittedWellFormed(tokens, spacyTags);
  }
}
