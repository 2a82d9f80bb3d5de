/**
 * Concrete inputs and outputs: the expected tag vectors of the repository's
 * tests (tests/constants.py) and a few edge cases of the string handling.
 * Each lemma takes its inputs as parameters fixed by its precondition
 * rather than as literals in its conclusion: on literal arguments the
 * verifier tries to evaluate the realigner itself, which is far costlier
 * than the proof from the rewrite table. The lemmas on labels holding '-'
 * fix the alignment by its entries' coarse indices instead (a singleton
 * alignment with indices 0, 0 is `[[0], [0]]`), for the same reason.
 */
module Examples {
  import opened Wrappers
  import opened Tags
  import opened Neighbours
  import opened Rewrite
  import opened Realigner
  import opened Reference
  import opened Spans

  /** Realigning singleton entries whose tags are all well-formed gives `expected` once it matches the refitted tags. */
  lemma RefitVector(tokens: Alignment, spacyTags: seq<string>, expected: seq<string>)
    requires Singletons(tokens)
    requires forall i :: 0 <= i < |tokens| ==> tokens[i][0] < |spacyTags| && IsTag(spacyTags[tokens[i][0]])
    requires |expected| == |tokens|
    requires forall i :: 0 <= i < |tokens| ==>
      expected[i] == Refit(spacyTags[tokens[i][0]], SameAsPrev(tokens, i), SameAsNext(tokens, i))
    ensures Realign(tokens, spacyTags) == Some(expected)
  {
    SingletonRefit(tokens, spacyTags);
    assert Realign(tokens, spacyTags).value == expected;
  }

  /** "BS ##c" (tests/constants.py:33-34): a Unit tag split into two fragments becomes Begin, Last. */
  lemma UnitSplitInTwo(tokens: Alignment, spacyTags: seq<string>)
    requires tokens == [[0], [0]] && spacyTags == ["U-degree"]
    ensures Realign(tokens, spacyTags) == Some(["B-degree", "L-degree"])
  {
    assert IsTag("U-degree");
    RefitVector(tokens, spacyTags, ["B-degree", "L-degree"]);
  }

  /** "in Plan ##dom ##e" (tests/constants.py:89-92): a Unit tag split into three becomes Begin, Inside, Last; the `O` before it is kept. */
  lemma UnitSplitInThree(tokens: Alignment, spacyTags: seq<string>)
    requires tokens == [[0], [1], [1], [1]] && spacyTags == ["O", "U-Loc"]
    ensures Realign(tokens, spacyTags) == Some(["O", "B-Loc", "I-Loc", "L-Loc"])
  {
    assert IsTag("O") && IsTag("U-Loc");
    RefitVector(tokens, spacyTags, ["O", "B-Loc", "I-Loc", "L-Loc"]);
  }

  /** "Bachelor ##s of" (tests/constants.py:36-38): a split Begin tag keeps Begin on its first fragment; the next becomes Inside. */
  lemma BeginSplit(tokens: Alignment, spacyTags: seq<string>)
    requires tokens == [[0], [0], [1]] && spacyTags == ["B-degree", "I-degree"]
    ensures Realign(tokens, spacyTags) == Some(["B-degree", "I-degree", "I-degree"])
  {
    assert IsTag("B-degree") && IsTag("I-degree");
    RefitVector(tokens, spacyTags, ["B-degree", "I-degree", "I-degree"]);
  }

  /** "Apple Store ##front" (tests/constants.py:84-86): a split Last tag keeps Last on its final fragment; the one before becomes Inside. */
  lemma LastSplit(tokens: Alignment, spacyTags: seq<string>)
    requires tokens == [[0], [1], [1]] && spacyTags == ["B-Loc", "L-Loc"]
    ensures Realign(tokens, spacyTags) == Some(["B-Loc", "I-Loc", "L-Loc"])
  {
    assert IsTag("B-Loc") && IsTag("L-Loc");
    RefitVector(tokens, spacyTags, ["B-Loc", "I-Loc", "L-Loc"]);
  }

  /**
   * "Tuesday in Plandome" (tests/constants.py:88-92): the unsplit Unit tag is
   * kept and the Unit tag split in three becomes Begin, Inside, Last.
   */
  lemma PlandomeSplit(tokens: Alignment, spacyTags: seq<string>)
    requires tokens == [[0], [1], [2], [2], [2]] && spacyTags == ["U-Date", "O", "U-Loc"]
    ensures Realign(tokens, spacyTags) == Some(["U-Date", "O", "B-Loc", "I-Loc", "L-Loc"])
  {
    assert IsTag("O") && IsTag("U-Date") && IsTag("U-Loc");
    RefitVector(tokens, spacyTags, ["U-Date", "O", "B-Loc", "I-Loc", "L-Loc"]);
  }

  /**
   * "( Bachelor ##s of" as in the docstring of map_spacy_to_hf_tags
   * (spacy_to_hf/utils.py:100-110): the code gives the split Begin tag Begin,
   * Inside, where that docstring lists Begin, Last.
   */
  lemma DocstringBachelors(tokens: Alignment, spacyTags: seq<string>)
    requires tokens == [[0], [1], [1], [2]] && spacyTags == ["O", "B-ORG", "I-ORG"]
    ensures Realign(tokens, spacyTags) == Some(["O", "B-ORG", "I-ORG", "I-ORG"])
  {
    assert IsTag("O") && IsTag("B-ORG") && IsTag("I-ORG");
    RefitVector(tokens, spacyTags, ["O", "B-ORG", "I-ORG", "I-ORG"]);
  }

  /** A Unit tag `U-<rest>` on two fragments of one coarse token is rewritten to `B-<label>`, `L-<label>`. */
  lemma UnitOnTwoFragments(tokens: Alignment, tag: string, rest: string)
    requires Singletons(tokens) && |tokens| == 2 && tokens[0][0] == 0 && tokens[1][0] == 0
    requires tag == ['U', '-'] + rest
    ensures CleanTag(tokens, 0, 0, tag) == Some(['B', '-'] + Kind(rest))
    ensures CleanTag(tokens, 1, 0, tag) == Some(['L', '-'] + Kind(rest))
  {
    assert PrevTokenIsSame(tokens, 0, 0) == Some(false) && NextTokenIsSame(tokens, 0, 0) == Some(true);
    CleanTagFollowsTable(tokens, 0, 0, 'U', rest, false, true);
    assert PrevTokenIsSame(tokens, 1, 0) == Some(true) && NextTokenIsSame(tokens, 1, 0) == Some(false);
    CleanTagFollowsTable(tokens, 1, 0, 'U', rest, true, false);
  }

  /** Singleton entries emit, in order, the outcome of each fine token's coarse index. */
  lemma FromOutcomes(tokens: Alignment, spacyTags: seq<string>, out: seq<string>)
    requires Singletons(tokens) && |tokens| == |out|
    requires forall i :: 0 <= i < |tokens| ==> Outcome(tokens, spacyTags, Pair(i, tokens[i][0])) == Some(out[i])
    ensures Realign(tokens, spacyTags) == Some(out)
  {
    SingletonOutput(tokens, spacyTags);
    assert Realign(tokens, spacyTags).value == out;
  }

  /** Two singleton fragments of coarse token 0 emit their two outcomes. */
  lemma TwoFragments(tokens: Alignment, spacyTags: seq<string>, a: string, b: string)
    requires Singletons(tokens) && |tokens| == 2 && tokens[0][0] == 0 && tokens[1][0] == 0
    requires Outcome(tokens, spacyTags, Pair(0, 0)) == Some(a) && Outcome(tokens, spacyTags, Pair(1, 0)) == Some(b)
    ensures Realign(tokens, spacyTags) == Some([a, b])
  {
    var out := [a, b];
    forall i | 0 <= i < |tokens|
      ensures Outcome(tokens, spacyTags, Pair(i, tokens[i][0])) == Some(out[i])
    {
      assert i == 0 || i == 1;
    }
    FromOutcomes(tokens, spacyTags, out);
  }

  /**
   * A label holding '-' is cut at it when a split tag is rewritten: `U-New-York`
   * on two fragments gives `B-New`, `L-New`.
   */
  lemma TruncatedLabel(tokens: Alignment, spacyTags: seq<string>, entity: string, more: string)
    requires '-' !in entity
    requires Singletons(tokens) && |tokens| == 2 && tokens[0][0] == 0 && tokens[1][0] == 0
    requires spacyTags == [['U', '-'] + entity + "-" + more]
    ensures Realign(tokens, spacyTags) == Some([['B', '-'] + entity, ['L', '-'] + entity])
  {
    var rest := entity + "-" + more;
    KindBeforeHyphen(entity, more);
    assert spacyTags[0] == ['U', '-'] + rest;
    UnitOnTwoFragments(tokens, spacyTags[0], rest);
    TwoFragments(tokens, spacyTags, ['B', '-'] + entity, ['L', '-'] + entity);
  }

  /**
   * The truncation can break a span: a Begin tag `B-<e>-<more>` split in two,
   * followed by `L-<e>-<more>`, gives `B-<e>-<more>`, `I-<e>`, `L-<e>-<more>`,
   * where only the rewritten fragment loses the label's tail.
   */
  lemma MixedLabels(tokens: Alignment, spacyTags: seq<string>, entity: string, more: string)
    requires '-' !in entity
    requires Singletons(tokens) && |tokens| == 3 && tokens[0][0] == 0 && tokens[1][0] == 0 && tokens[2][0] == 1
    requires spacyTags == [['B', '-'] + entity + "-" + more, ['L', '-'] + entity + "-" + more]
    ensures Realign(tokens, spacyTags) == Some([spacyTags[0], ['I', '-'] + entity, spacyTags[1]])
  {
    var rest := entity + "-" + more;
    KindBeforeHyphen(entity, more);
    assert spacyTags[0] == ['B', '-'] + rest && spacyTags[1] == ['L', '-'] + rest;
    BeginSplitThenLast(tokens, spacyTags[0], spacyTags[1], rest);
    ThreeFragments(tokens, spacyTags, spacyTags[0], ['I', '-'] + entity, spacyTags[1]);
  }

  /** `B-<rest>` on two fragments of coarse token 0, then `L-<rest>` on coarse token 1: Begin, Inside with the label, Last. */
  lemma BeginSplitThenLast(tokens: Alignment, b: string, l: string, rest: string)
    requires Singletons(tokens) && |tokens| == 3 && tokens[0][0] == 0 && tokens[1][0] == 0 && tokens[2][0] == 1
    requires b == ['B', '-'] + rest && l == ['L', '-'] + rest
    ensures CleanTag(tokens, 0, 0, b) == Some(b)
    ensures CleanTag(tokens, 1, 0, b) == Some(['I', '-'] + Kind(rest))
    ensures CleanTag(tokens, 2, 1, l) == Some(l)
  {
    assert PrevTokenIsSame(tokens, 0, 0) == Some(false);
    CleanTagFollowsTable(tokens, 0, 0, 'B', rest, false, false);
    assert PrevTokenIsSame(tokens, 1, 0) == Some(true);
    CleanTagFollowsTable(tokens, 1, 0, 'B', rest, true, false);
    assert NextTokenIsSame(tokens, 2, 1) == Some(false);
    CleanTagFollowsTable(tokens, 2, 1, 'L', rest, false, false);
  }

  /** Three singleton fine tokens on coarse tokens 0, 0, 1 emit their three outcomes. */
  lemma ThreeFragments(tokens: Alignment, spacyTags: seq<string>, a: string, b: string, c: string)
    requires Singletons(tokens) && |tokens| == 3 && tokens[0][0] == 0 && tokens[1][0] == 0 && tokens[2][0] == 1
    requires Outcome(tokens, spacyTags, Pair(0, 0)) == Some(a)
    requires Outcome(tokens, spacyTags, Pair(1, 0)) == Some(b)
    requires Outcome(tokens, spacyTags, Pair(2, 1)) == Some(c)
    ensures Realign(tokens, spacyTags) == Some([a, b, c])
  {
    var out := [a, b, c];
    forall i | 0 <= i < |tokens|
      ensures Outcome(tokens, spacyTags, Pair(i, tokens[i][0])) == Some(out[i])
    {
      assert i == 0 || i == 1 || i == 2;
    }
    FromOutcomes(tokens, spacyTags, out);
  }

  /** A bare `U` tag on a split coarse token raises: the rewrite looks for a label after a '-' that is not there. */
  lemma BareUnitRaises(tokens: Alignment, spacyTags: seq<string>)
    requires tokens == [[0], [0]] && spacyTags == ["U"]
    ensures Realign(tokens, spacyTags) == None
  {
    SingletonOutput(tokens, spacyTags);
    assert Kind("U") == "U";
    assert CleanTag(tokens, 0, 0, "U") == None;
  }

  /** A bare `U` tag on an unsplit coarse token is copied: nothing looks for its label. */
  lemma BareUnitKept(tokens: Alignment, spacyTags: seq<string>)
    requires tokens == [[0]] && spacyTags == ["U"]
    ensures Realign(tokens, spacyTags) == Some(["U"])
  {
    UnsplitKeepsTags(tokens, spacyTags);
    assert seq(|tokens|, i requires 0 <= i < |tokens| => spacyTags[tokens[i][0]]) == ["U"];
  }
}
