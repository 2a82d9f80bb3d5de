# BILOU tag realigner

A Dafny model of the tag realigner of `spacy-to-hf`. It is `map_spacy_to_hf_tags` and its helpers in
`spacy_to_hf/utils.py`. The realigner carries BILOU named-entity tags (`B-`egin, `I-`nside, `L-`ast,
`U-`nit, `O`utside) from spaCy's coarse tokens onto a HuggingFace tokenizer's fine tokens. It takes two
inputs:
- an alignment, which gives each fine token the list of coarse token indices it overlaps;
- one tag per coarse token.

It emits one tag per (fine token, coarse index) pair, in order. Sometimes one coarse token has been split
into adjacent fine tokens. Then its Unit, Begin or Last tag is re-kinded on each fragment so the entity
still has exactly one beginning and one end:
- "same coarse token" is detected by comparing with the last index of the previous entry and the first
  index of the next entry;
- the label kept is the field between the first and second '-'.

Modules:
- `Strings`: Python's `str.split` on one character, with its inverse `Join`.
- `Tags`: the kind of a tag (`split("-")[0]`), its label (`split("-")[1]`) and the three kind tests.
- `Neighbours`: `next_token_is_same` and `prev_token_is_same`.
- `Rewrite`: the three handlers, the dispatch of the loop body, and the rewrite table stated
  independently as "begins / ends its entity".
- `Realigner`: the specification function `Realign`, and the imperative `MapSpacyToHfTags` (outer
  loop, comprehension, inner `zip` loop) proved equal to it.
- `Reference`: a flat reference definition. It lists all (fine, coarse) pairs and cleans each one. It
  also proves the output length.
- `Spans`: what the realigner achieves when every fine token lies on exactly one coarse token:
  - unsplit tags are copied;
  - a run of fragments gets split-entity tags;
  - a well-formed BILOU sequence stays well-formed when the fine tokens walk the coarse tokens in order.
- `Examples`: the expected vectors of `tests/constants.py` on the fragments they exercise, plus edge
  cases of the string handling.

Every way the Python code raises `IndexError` is modelled as `None`, and each aborts the whole call:
- a coarse index out of range;
- a consulted empty neighbour entry;
- a rewritten tag without '-'.

The docstring of `map_spacy_to_hf_tags` (`spacy_to_hf/utils.py:108-110`) shows a split Begin tag as
`B-ORG, L-ORG`. The code produces `B-ORG, I-ORG`, and so does the test vector at
`tests/constants.py:36-37`. The model follows the code (`Examples.DocstringBachelors`).

## Model

| member | source | states |
|---|---|---|
| Strings.Split | spacy_to_hf/utils.py:22 | `str.split` on one character: at least one piece, exactly one iff the separator is absent. No piece holds the separator. The first piece is the prefix up to the first separator. |
| Strings.JoinSplit | spacy_to_hf/utils.py:22 | Joining the pieces of a split with the separator gives back the string. |
| Strings.SplitJoin | spacy_to_hf/utils.py:34 | Splitting a join of separator-free pieces gives back the pieces. |
| Strings.FirstPiece | spacy_to_hf/utils.py:34 | When `s` starts with `p` and a separator, and `p` holds no separator, the split of `s` is `p` followed by the split of the rest. |
| Tags.Kind | spacy_to_hf/utils.py:21-30 | The kind is a '-'-free prefix of the tag, followed in the tag by '-' or the end. |
| Tags.GetLabel | spacy_to_hf/utils.py:33-34 | The label exists iff the tag holds '-'. It holds no '-'. The tag starts with `kind-label`, followed by '-' or the end. |
| Tags.LabelPiece | spacy_to_hf/utils.py:33-34 | The second piece of a split at '-' sits right after the first '-' and runs to the next '-' or the end. |
| Tags.KindBeforeHyphen | spacy_to_hf/utils.py:21-30 | The kind of `p-q` is `p` when `p` has no '-'. |
| Tags.ParseTag | spacy_to_hf/utils.py:21-34 | `k-rest` has kind `k`. Its label is the text of `rest` before any further '-'. |
| Tags.KindIsLetter | spacy_to_hf/utils.py:21-30 | The kind is the letter `k` exactly when the tag is `k` or starts with `k-`. Nothing after the first '-' matters. |
| Tags.Classify | spacy_to_hf/utils.py:21-30 | Unit, Begin and Last each hold iff the matching kind test holds (`IsUnitTag`, `IsBeginTag` and `IsLastTag`, which model `_is_unit_tag` and its siblings), so the three are mutually exclusive. `O` is none of them. |
| Neighbours.NextTokenIsSame | spacy_to_hf/utils.py:7-11 | It raises iff the next entry exists and is empty. It is true iff the next entry exists and its first index is `tokNum`. So it is false for the last fine token. |
| Neighbours.PrevTokenIsSame | spacy_to_hf/utils.py:14-18 | It raises iff `cur > 0` and the previous entry is missing or empty. It is true iff the previous entry exists and its last index (`Last`, Python's `entry[-1]`) is `tokNum`. So it is false for `cur == 0`. |
| Neighbours.NextSameIffShared | spacy_to_hf/utils.py:7-11 | On a monotone alignment, looking only at the next entry's first index is the same as asking whether the next fine token overlaps `tokNum` at all. |
| Neighbours.PrevSameIffShared | spacy_to_hf/utils.py:14-18 | On a monotone alignment, looking only at the previous entry's last index is the same as asking whether the previous fine token overlaps `tokNum` at all. |
| Rewrite.Retag | spacy_to_hf/utils.py:49-53 | `f"{k}-{_get_label(tag)}"` exists iff the tag holds '-'. It is then exactly `k-` followed by the tag's label, so it has kind `k` and the same label. |
| Rewrite.HandleUnitTag | spacy_to_hf/utils.py:37-54 | Both neighbours on the same coarse token give exactly `I-` plus the label, only the previous gives `L-` plus the label, only the next gives `B-` plus the label. Neither gives the tag unchanged. It raises exactly when a consulted neighbour raises or a rewrite meets a tag without '-'. |
| Rewrite.HandleBeginTag | spacy_to_hf/utils.py:57-69 | When the previous fine token ends on the same coarse token, the result is exactly `I-` plus the label; otherwise the tag is unchanged. The error cases are as in the source. |
| Rewrite.HandleLastTag | spacy_to_hf/utils.py:72-84 | When the next fine token starts on the same coarse token, the result is exactly `I-` plus the label; otherwise the tag is unchanged. The error cases are as in the source. |
| Rewrite.CleanTag | spacy_to_hf/utils.py:122-128 | Tags that are not Unit, Begin or Last pass through unchanged. Every change keeps the label. |
| Rewrite.CleanTagFollowsTable | spacy_to_hf/utils.py:37-84 | On `k-rest` the emitted tag has the kind of an independent table: it begins its entity iff the coarse tag begins one and the previous fragment is elsewhere, and ends it iff the coarse tag ends one and the next fragment is elsewhere. The label is kept. |
| Realigner.MappedTags | spacy_to_hf/utils.py:114 | The comprehension exists iff every index is in range, and then holds `spacyTags[i]` for each index in order. |
| Realigner.CleanEntry | spacy_to_hf/utils.py:116-130 | The inner loop succeeds iff every pair's cleaning succeeds, and then lists the cleaned tags pairwise. |
| Realigner.FailureIsFinal | spacy_to_hf/utils.py:112-133 | Once a prefix of the fine tokens raises, the whole call raises. |
| Realigner.LookUpTags | spacy_to_hf/utils.py:114 | The loop equals `MappedTags`. |
| Realigner.CleanHfTags | spacy_to_hf/utils.py:115-130 | The loop with the `if`/`elif` dispatch equals `CleanEntry`. |
| Realigner.EntryHfTags | spacy_to_hf/utils.py:113-132 | One outer iteration produces exactly the tags of one fine token. |
| Realigner.MapSpacyToHfTags | spacy_to_hf/utils.py:87-133 | The imperative loops equal the specification function `Realign` (the tags of each fine token in turn, `None` once one raises), including when they raise. |
| Reference.EntryMatchesPairs | spacy_to_hf/utils.py:113-132 | One fine token emits the cleaned tags of its (fine, coarse) pairs. |
| Reference.PrefixMatchesPairs | spacy_to_hf/utils.py:112-133 | The output after `n` fine tokens is the cleaned tag of every pair of those tokens, in order. |
| Reference.RealignIsExpected | spacy_to_hf/utils.py:112-133 | The output is the flat reference: one cleaned tag per (fine token, coarse index) pair, in fine-token then entry order. It is `None` iff some pair raises. |
| Reference.OutputLength | spacy_to_hf/utils.py:112-133 | The output length is the sum of the entry lengths. |
| Reference.SingletonLength | spacy_to_hf/utils.py:112-133 | With singleton entries the output has one tag per fine token. |
| Spans.SingletonOutput | spacy_to_hf/utils.py:112-133 | With singleton entries, fine token `i` emits exactly the outcome of its one coarse index. |
| Spans.UnsplitKeepsTags | spacy_to_hf/utils.py:122-130 | When no two adjacent fine tokens share a coarse token, the output is the coarse tags, copied by the alignment, whatever the tags are. |
| Spans.UnsplitOutcome | spacy_to_hf/utils.py:37-84 | A fine token whose neighbours lie on other coarse tokens keeps its coarse tag. |
| Spans.IdentityKeepsTags | spacy_to_hf/utils.py:112-133 | Under the identity alignment the output is the input tags. |
| Spans.CleanTagOnTag | spacy_to_hf/utils.py:122-128 | On a well-formed tag the cleaned tag is the tag refitted by the rewrite table. |
| Spans.RefitKind | spacy_to_hf/utils.py:37-84 | Refitting keeps the tag's shape and label. It changes whether the tag opens (closes) an entity only when the previous (next) fragment shares the coarse token, and then it no longer does. |
| Spans.SingletonRefit | spacy_to_hf/utils.py:112-133 | With singleton entries and well-formed tags, the output is each coarse tag refitted to its fragment's neighbours. |
| Spans.SplitToken | spacy_to_hf/utils.py:37-84 | The fragments of one split coarse token get the split-entity tags. A Unit gives Begin, Inside..., Last. A Begin keeps only its first fragment and a Last only its final one. The rest are Inside. |
| Spans.RefitIsSplitFragment | spacy_to_hf/utils.py:37-84 | The rewrite table read along a run of fragments gives the split-entity tag of each position. |
| Spans.FollowsAt | spacy_to_hf/utils.py:37-84 | Adjacent fine tokens of a covering alignment carry tags that may follow each other in BILOU. |
| Spans.RefittedWellFormed | spacy_to_hf/utils.py:37-84 | Refitting a well-formed sequence along a covering alignment keeps it well-formed. |
| Spans.SplitKeepsWellFormed | spacy_to_hf/utils.py:87-133 | A well-formed coarse BILOU sequence, realigned onto fine tokens that walk the coarse tokens in order, never raises and gives a well-formed fine sequence. Each fine token lies on one coarse token, and none is skipped. |
| Examples.UnitSplitInTwo | tests/constants.py:33-34 | A Unit tag on two fragments gives Begin, Last. |
| Examples.UnitSplitInThree | tests/constants.py:89-92 | A Unit tag on three fragments gives Begin, Inside, Last. |
| Examples.BeginSplit | tests/constants.py:36-38 | A split Begin tag gives Begin, then Inside. |
| Examples.LastSplit | tests/constants.py:84-86 | A split Last tag gives Inside, then Last. |
| Examples.PlandomeSplit | tests/constants.py:88-92 | The unsplit `U-Date` is kept next to a Unit split in three. |
| Examples.DocstringBachelors | spacy_to_hf/utils.py:100-110 | On the docstring's "( Bachelor ##s of", the code gives `B-ORG, I-ORG`. |
| Examples.UnitOnTwoFragments | spacy_to_hf/utils.py:37-54 | `U-rest` on two fragments of one coarse token is rewritten to `B-label` and `L-label`. |
| Examples.FromOutcomes | spacy_to_hf/utils.py:112-133 | Singleton entries emit, in order, the cleaned tag of each fine token's coarse index. |
| Examples.TwoFragments | spacy_to_hf/utils.py:112-133 | Two fragments of one coarse token emit their two outcomes. |
| Examples.ThreeFragments | spacy_to_hf/utils.py:112-133 | Fine tokens on coarse tokens 0, 0, 1 emit their three outcomes. |
| Examples.TruncatedLabel | spacy_to_hf/utils.py:33-34 | A label holding '-' is cut at it when rewritten: `U-New-York` on two fragments gives `B-New`, `L-New`. |
| Examples.BeginSplitThenLast | spacy_to_hf/utils.py:57-84 | `B-rest` on two fragments then `L-rest`: Begin kept, then `I-` plus the label, then Last kept. |
| Examples.MixedLabels | spacy_to_hf/utils.py:33-34 | `B-e-more` split in two, then `L-e-more`, gives `B-e-more`, `I-e`, `L-e-more`: one span whose labels differ. |
| Examples.BareUnitRaises | spacy_to_hf/utils.py:33-34 | A bare `U` on a split coarse token raises. |
| Examples.BareUnitKept | spacy_to_hf/utils.py:45-54 | A bare `U` on an unsplit coarse token is copied, since its label is never read. |

## Left out

- `dict_to_dataset` (spacy_to_hf/utils.py:136-163): it is built on the HuggingFace `datasets` library (`Dataset.from_dict`, `map`, `cast_column`, `ClassLabel`), which this model does not include.
- `spacy_to_hf/conversion.py`: glue to spaCy, a pretrained tokenizer and an alignment library. The alignment and the coarse tags are the realigner's inputs here.
- `demo/app.py`: a user interface.
- Exceptions: every `IndexError` is `None`. Which statement raises, and the exception's message, are not distinguished.
- Negative indices: coarse indices are natural numbers. Python would wrap a negative index round to the end of the list.
- Input types: the inputs are lists of ints and strings as annotated. Other Python values are not modelled.
- Spans.SplitKeepsWellFormed: well-formedness is proved only when every entry is a singleton, the fine tokens walk the coarse tokens in order without gaps, and no label holds '-'. The code keeps only the text up to a label's first '-' on a rewritten fragment, so such labels give a span with mixed labels (`Examples.MixedLabels`). The code checks neither condition, and with multi-index entries it emits several tags for one fine token.
- Examples: the two full 15-token test vectors are represented by the fragments they exercise, not as whole sequences.
