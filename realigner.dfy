/**
 * The sequence assembler, `map_spacy_to_hf_tags`: walks the fine tokens in
 * order and, for each coarse index of each fine token's alignment entry,
 * emits the coarse token's tag after the rewrite rules. `None` stands for
 * the `IndexError` the original raises (an out-of-range coarse index, an
 * empty neighbour entry that is consulted, a rewritten tag without '-');
 * all of these abort the whole call, so which one comes first is immaterial.
 */
module Realigner {
  import opened Wrappers
  import opened Tags
  import opened Neighbours
  import opened Rewrite

  /** `[spacy_tags[i] for i in entry]`: the coarse tag of each index, `None` if one is out of range. */
  function MappedTags(entry: seq<nat>, spacyTags: seq<string>): (r: Option<seq<string>>)
    ensures r.Some? <==> forall k :: 0 <= k < |entry| ==> entry[k] < |spacyTags|
    ensures r.Some? ==> |r.value| == |entry| && forall k :: 0 <= k < |entry| ==> r.value[k] == spacyTags[entry[k]]
  {
    if entry == [] then Some([])
    else if entry[0] >= |spacyTags| then None
    else match MappedTags(entry[1..], spacyTags)
      case None => None
      case Some(rest) => Some([spacyTags[entry[0]]] + rest)
  }

  /** The inner `zip` loop: the cleaned tag of each (tag, coarse index) pair of fine token `cur`. */
  function CleanEntry(tokens: Alignment, cur: nat, mapped: seq<string>, nums: seq<nat>): (r: Option<seq<string>>)
    requires |mapped| == |nums|
    ensures r.Some? <==> forall k :: 0 <= k < |nums| ==> CleanTag(tokens, cur, nums[k], mapped[k]).Some?
    ensures r.Some? ==>
      |r.value| == |nums| && forall k :: 0 <= k < |nums| ==> r.value[k] == CleanTag(tokens, cur, nums[k], mapped[k]).value
  {
    if nums == [] then Some([])
    else match CleanTag(tokens, cur, nums[0], mapped[0])
      case None => None
      case Some(first) =>
        match CleanEntry(tokens, cur, mapped[1..], nums[1..])
        case None => None
        case Some(rest) => Some([first] + rest)
  }

  /** The tags emitted for fine token `cur`. */
  function EntryTags(tokens: Alignment, spacyTags: seq<string>, cur: nat): Option<seq<string>>
    requires cur < |tokens|
  {
    match MappedTags(tokens[cur], spacyTags)
    case None => None
    case Some(mapped) => CleanEntry(tokens, cur, mapped, tokens[cur])
  }

  /** The output after the first `n` fine tokens. */
  function RealignPrefix(tokens: Alignment, spacyTags: seq<string>, n: nat): Option<seq<string>>
    requires n <= |tokens|
  {
    if n == 0 then Some([])
    else match RealignPrefix(tokens, spacyTags, n - 1)
      case None => None
      case Some(done) =>
        match EntryTags(tokens, spacyTags, n - 1)
        case None => None
        case Some(more) => Some(done + more)
  }

  /** The whole output of `map_spacy_to_hf_tags`. */
  function Realign(tokens: Alignment, spacyTags: seq<string>): Option<seq<string>>
  {
    RealignPrefix(tokens, spacyTags, |tokens|)
  }

  /** Once a prefix raises, the whole call raises. */
  lemma {:induction false} FailureIsFinal(tokens: Alignment, spacyTags: seq<string>, n: nat)
    requires n <= |tokens| && RealignPrefix(tokens, spacyTags, n).None?
    ensures Realign(tokens, spacyTags).None?
    decreases |tokens| - n
  {
    if n < |tokens| {
      FailureIsFinal(tokens, spacyTags, n + 1);
    }
  }

  /** The list comprehension `[spacy_tags[i] for i in hf_spacy_tokens]`. */
  method LookUpTags(hfSpacyTokens: seq<nat>, spacyTags: seq<string>) returns (r: Option<seq<string>>)
    ensures r == MappedTags(hfSpacyTokens, spacyTags)
  {
    var mappedHfTags: seq<string> := [];
    for k := 0 to |hfSpacyTokens|
      invariant |mappedHfTags| == k
      invariant forall j :: 0 <= j < k ==> hfSpacyTokens[j] < |spacyTags| && mappedHfTags[j] == spacyTags[hfSpacyTokens[j]]
    {
      if hfSpacyTokens[k] >= |spacyTags| {
        return None;
      }
      mappedHfTags := mappedHfTags + [spacyTags[hfSpacyTokens[k]]];
    }
    var m := MappedTags(hfSpacyTokens, spacyTags);
    assert m.Some? && m.value == mappedHfTags;
    r := Some(mappedHfTags);
  }

  /** The inner loop over `zip(mapped_hf_tags, hf_spacy_tokens)`, appending each cleaned tag. */
  method CleanHfTags(hfToSpacy: Alignment, curIdx: nat, mappedHfTags: seq<string>, hfSpacyTokens: seq<nat>)
    returns (r: Option<seq<string>>)
    requires |mappedHfTags| == |hfSpacyTokens|
    ensures r == CleanEntry(hfToSpacy, curIdx, mappedHfTags, hfSpacyTokens)
  {
    var cleanHfTags: seq<string> := [];
    for k := 0 to |mappedHfTags|
      invariant |cleanHfTags| == k
      invariant forall j :: 0 <= j < k ==>
        CleanTag(hfToSpacy, curIdx, hfSpacyTokens[j], mappedHfTags[j]) == Some(cleanHfTags[j])
    {
      var tag, tokNum := mappedHfTags[k], hfSpacyTokens[k];
      var cleanTag := Some(tag);
      if IsUnitTag(tag) {
        cleanTag := HandleUnitTag(tag, hfToSpacy, curIdx, tokNum);
      } else if IsBeginTag(tag) {
        cleanTag := HandleBeginTag(tag, hfToSpacy, curIdx, tokNum);
      } else if IsLastTag(tag) {
        cleanTag := HandleLastTag(tag, hfToSpacy, curIdx, tokNum);
      }
      assert cleanTag == CleanTag(hfToSpacy, curIdx, tokNum, tag);
      if cleanTag.None? {
        return None;
      }
      cleanHfTags := cleanHfTags + [cleanTag.value];
    }
    var c := CleanEntry(hfToSpacy, curIdx, mappedHfTags, hfSpacyTokens);
    assert c.Some? && c.value == cleanHfTags;
    r := Some(cleanHfTags);
  }

  /** One iteration of the outer loop: the tags fine token `curIdx` contributes. */
  method EntryHfTags(hfToSpacy: Alignment, spacyTags: seq<string>, curIdx: nat) returns (r: Option<seq<string>>)
    requires curIdx < |hfToSpacy|
    ensures r == EntryTags(hfToSpacy, spacyTags, curIdx)
  {
    var hfSpacyTokens := hfToSpacy[curIdx];
    var mappedHfTags := LookUpTags(hfSpacyTokens, spacyTags);
    if mappedHfTags.None? {
      return None;
    }
    r := CleanHfTags(hfToSpacy, curIdx, mappedHfTags.value, hfSpacyTokens);
  }

  /** `map_spacy_to_hf_tags`: the outer loop over the fine tokens, extending the output. */
  method MapSpacyToHfTags(hfToSpacy: Alignment, spacyTags: seq<string>) returns (r: Option<seq<string>>)
    ensures r == Realign(hfToSpacy, spacyTags)
  {
    var hfTags: seq<string> := [];
    for curIdx := 0 to |hfToSpacy|
      invariant RealignPrefix(hfToSpacy, spacyTags, curIdx) == Some(hfTags)
    {
      var cleanHfTags := EntryHfTags(hfToSpacy, spacyTags, curIdx);
      if cleanHfTags.None? {
        FailureIsFinal(hfToSpacy, spacyTags, curIdx + 1);
        return None;
      }
      hfTags := hfTags + cleanHfTags.value;
    }
    r := Some(hfTags);
  }
}
