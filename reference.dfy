/**
 * A flat description of what the assembler emits: one tag per
 * (fine token, coarse index) pair of the alignment, in fine-token order and
 * then entry order, each the rewrite of that coarse token's tag; the call
 * raises exactly when one of those pairs does.
 */
module Reference {
  import opened Wrappers
  import opened Tags
  import opened Neighbours
  import opened Rewrite
  import opened Realigner

  /** Fine token `fine` overlaps coarse token `coarse`. */
  datatype Pair = Pair(fine: nat, coarse: nat)

  function EntryPairs(fine: nat, entry: seq<nat>): seq<Pair>
  {
    seq(|entry|, k requires 0 <= k < |entry| => Pair(fine, entry[k]))
  }

  /** The pairs of the alignment, in the order the loops visit them. */
  function Pairs(tokens: Alignment): seq<Pair>
  {
    if tokens == [] then []
    else Pairs(tokens[..|tokens| - 1]) + EntryPairs(|tokens| - 1, tokens[|tokens| - 1])
  }

  /** The sum of the entry lengths. */
  function TotalLength(tokens: Alignment): nat
  {
    if tokens == [] then 0 else TotalLength(tokens[..|tokens| - 1]) + |tokens[|tokens| - 1]|
  }

  /** What the pair contributes: its cleaned tag, or `None` where indexing or cleaning raises. */
  function Outcome(tokens: Alignment, spacyTags: seq<string>, p: Pair): Option<string>
  {
    if p.coarse < |spacyTags| then CleanTag(tokens, p.fine, p.coarse, spacyTags[p.coarse]) else None
  }

  function OutcomeOf(tokens: Alignment, spacyTags: seq<string>): Pair -> Option<string>
  {
    p => Outcome(tokens, spacyTags, p)
  }

  /** The values of `f` on `xs`, in order, provided none is `None`. */
  function AllSome<T, U>(xs: seq<T>, f: T -> Option<U>): (r: Option<seq<U>>)
    ensures r.Some? <==> forall j :: 0 <= j < |xs| ==> f(xs[j]).Some?
    ensures r.Some? ==> |r.value| == |xs| && forall j :: 0 <= j < |xs| ==> r.value[j] == f(xs[j]).value
  {
    if xs == [] then Some([])
    else match f(xs[0])
      case None => None
      case Some(first) =>
        match AllSome(xs[1..], f)
        case None => None
        case Some(rest) => Some([first] + rest)
  }

  /** Collecting over a concatenation collects each part and concatenates. */
  lemma AllSomeConcat<T, U>(a: seq<T>, b: seq<T>, f: T -> Option<U>)
    ensures AllSome(a + b, f) ==
      match AllSome(a, f)
      case None => None
      case Some(x) => match AllSome(b, f) case None => None case Some(y) => Some(x + y)
  {
    var ab := a + b;
    assert forall j :: 0 <= j < |a| ==> ab[j] == a[j];
    assert forall j :: 0 <= j < |b| ==> ab[|a| + j] == b[j];
    var r, x, y := AllSome(ab, f), AllSome(a, f), AllSome(b, f);
    if x.Some? && y.Some? {
      assert r.Some? by {
        forall j | 0 <= j < |ab| ensures f(ab[j]).Some? {
          if j >= |a| {
            assert ab[j] == b[j - |a|];
          }
        }
      }
      assert r.value == x.value + y.value by {
        forall j | |a| <= j < |ab| ensures r.value[j] == (x.value + y.value)[j] {
          assert ab[j] == b[j - |a|];
        }
      }
    } else if x.Some? {
      var k :| 0 <= k < |b| && f(b[k]).None?;
      assert f(ab[|a| + k]).None?;
    }
  }

  /** The expected output: the outcome of every pair, or `None` if any pair raises. */
  function Expected(tokens: Alignment, spacyTags: seq<string>): Option<seq<string>>
  {
    AllSome(Pairs(tokens), OutcomeOf(tokens, spacyTags))
  }

  /** The tags of one fine token are the outcomes of its pairs. */
  lemma EntryMatchesPairs(tokens: Alignment, spacyTags: seq<string>, i: nat)
    requires i < |tokens|
    ensures EntryTags(tokens, spacyTags, i) == AllSome(EntryPairs(i, tokens[i]), OutcomeOf(tokens, spacyTags))
  {
    var entry, ps, f := tokens[i], EntryPairs(i, tokens[i]), OutcomeOf(tokens, spacyTags);
    var e, r := EntryTags(tokens, spacyTags, i), AllSome(ps, f);
    assert forall k :: 0 <= k < |ps| ==> ps[k] == Pair(i, entry[k]);
    var m := MappedTags(entry, spacyTags);
    if m.None? {
      var k :| 0 <= k < |entry| && entry[k] >= |spacyTags|;
      assert f(ps[k]).None?;
    } else {
      var mapped := m.value;
      assert e == CleanEntry(tokens, i, mapped, entry);
      assert forall k :: 0 <= k < |ps| ==> f(ps[k]) == CleanTag(tokens, i, entry[k], mapped[k]);
      if e.Some? {
        assert e.value == r.value;
      }
    }
  }

  /** The output after `n` fine tokens is the expected output of the first `n` entries. */
  lemma {:induction false} PrefixMatchesPairs(tokens: Alignment, spacyTags: seq<string>, n: nat)
    requires n <= |tokens|
    ensures RealignPrefix(tokens, spacyTags, n) == AllSome(Pairs(tokens[..n]), OutcomeOf(tokens, spacyTags))
  {
    if n > 0 {
      PrefixMatchesPairs(tokens, spacyTags, n - 1);
      EntryMatchesPairs(tokens, spacyTags, n - 1);
      assert tokens[..n][..n - 1] == tokens[..n - 1];
      AllSomeConcat(Pairs(tokens[..n - 1]), EntryPairs(n - 1, tokens[n - 1]), OutcomeOf(tokens, spacyTags));
    }
  }

  /** The assembler emits exactly the expected output. */
  lemma RealignIsExpected(tokens: Alignment, spacyTags: seq<string>)
    ensures Realign(tokens, spacyTags) == Expected(tokens, spacyTags)
  {
    PrefixMatchesPairs(tokens, spacyTags, |tokens|);
    assert tokens[..|tokens|] == tokens;
  }

  /** There are as many pairs as the entry lengths add up to. */
  lemma {:induction false} PairsLength(tokens: Alignment)
    ensures |Pairs(tokens)| == TotalLength(tokens)
  {
    if tokens != [] {
      PairsLength(tokens[..|tokens| - 1]);
    }
  }

  /** The output, when there is one, has one tag per pair: the sum of the entry lengths. */
  lemma OutputLength(tokens: Alignment, spacyTags: seq<string>)
    requires Realign(tokens, spacyTags).Some?
    ensures |Realign(tokens, spacyTags).value| == TotalLength(tokens)
  {
    RealignIsExpected(tokens, spacyTags);
    PairsLength(tokens);
  }

  /** Every fine token overlaps exactly one coarse token. */
  ghost predicate Singletons(tokens: Alignment)
  {
    forall i :: 0 <= i < |tokens| ==> |tokens[i]| == 1
  }

  /** With singleton entries the pairs are the fine tokens themselves. */
  lemma {:induction false} SingletonPairs(tokens: Alignment)
    requires Singletons(tokens)
    ensures |Pairs(tokens)| == |tokens|
    ensures forall i :: 0 <= i < |tokens| ==> Pairs(tokens)[i] == Pair(i, tokens[i][0])
  {
    if tokens != [] {
      var init := tokens[..|tokens| - 1];
      SingletonPairs(init);
    }
  }

  /** With singleton entries the output has one tag per fine token. */
  lemma SingletonLength(tokens: Alignment, spacyTags: seq<string>)
    requires Singletons(tokens) && Realign(tokens, spacyTags).Some?
    ensures |Realign(tokens, spacyTags).value| == |tokens|
  {
    RealignIsExpected(tokens, spacyTags);
    SingletonPairs(tokens);
  }
}
