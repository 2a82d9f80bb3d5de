/**
 * Reading a BILOU tag string (`"O"`, `"U-ORG"`, `"B-degree"`, ...). The kind
 * of a tag is the text before its first '-', its label the field between the
 * first and the second '-'; nothing is validated, so `"U"` is a Unit tag
 * without a label and `"U-New-York"` has the label `"New"`.
 */
module Tags {
  import opened Wrappers
  import opened Strings

  /** The tag of a token outside every entity. */
  const Outside: string := "O"

  /** `tag.split("-")[0]`: the text of `tag` before its first '-'. */
  function Kind(tag: string): (k: string)
    ensures k <= tag && '-' !in k
    ensures |k| < |tag| ==> tag[|k|] == '-'
  {
    Split(tag, '-')[0]
  }

  predicate IsUnitTag(tag: string)
  {
    tag != Outside && Kind(tag) == "U"
  }

  predicate IsBeginTag(tag: string)
  {
    tag != Outside && Kind(tag) == "B"
  }

  predicate IsLastTag(tag: string)
  {
    tag != Outside && Kind(tag) == "L"
  }

  /**
   * `tag.split("-")[1]`: the field after the first '-', up to the next '-'
   * or the end. `None` when `tag` has no '-', where the indexing raises.
   */
  function GetLabel(tag: string): (r: Option<string>)
    ensures r.Some? <==> '-' in tag
    ensures r.Some? ==> '-' !in r.value && Kind(tag) + "-" + r.value <= tag
    ensures r.Some? ==> var end := |Kind(tag)| + 1 + |r.value|; end == |tag| || tag[end] == '-'
  {
    var parts := Split(tag, '-');
    if |parts| >= 2 then
      LabelPiece(tag);
      Some(parts[1])
    else
      None
  }

  /** The second piece of a split at '-' lies between the first '-' and the next one or the end. */
  lemma LabelPiece(tag: string)
    requires '-' in tag
    ensures |Split(tag, '-')| >= 2
    ensures var entity := Split(tag, '-')[1];
      && '-' !in entity
      && Kind(tag) + "-" + entity <= tag
      && var end := |Kind(tag)| + 1 + |entity|; end == |tag| || tag[end] == '-'
  {
    var i := IndexOf(tag, '-');
    var head, rest := tag[..i], tag[i + 1..];
    assert Split(tag, '-') == [head] + Split(rest, '-') by {
      assert head + ['-'] <= tag;
      FirstPiece(tag, head, '-');
    }
    var entity := Split(rest, '-')[0];
    assert entity <= rest;
    PrefixThroughHyphen(tag, i, entity);
  }

  /** A prefix of the text after the '-' at `i` extends the text before it. */
  lemma PrefixThroughHyphen(tag: string, i: nat, entity: string)
    requires i < |tag| && tag[i] == '-' && entity <= tag[i + 1..]
    ensures tag[..i] + "-" + entity <= tag
    ensures var end := i + 1 + |entity|; end <= |tag| && (end < |tag| ==> tag[end] == tag[i + 1..][|entity|])
  {
    assert tag[..i] + "-" + entity == tag[..i + 1 + |entity|];
  }

  /** The kind is the text before the first '-'. */
  lemma KindBeforeHyphen(p: string, q: string)
    requires '-' !in p
    ensures Kind(p + "-" + q) == p
  {
    var s := p + "-" + q;
    assert p + ['-'] <= s;
    FirstPiece(s, p, '-');
  }

  /** A tag `<k>-<rest>` has kind `[k]`; its label is the text of `rest` before any further '-'. */
  lemma ParseTag(k: char, rest: string)
    requires k != '-'
    ensures Kind([k, '-'] + rest) == [k]
    ensures GetLabel([k, '-'] + rest) == Some(Kind(rest))
  {
    var tag := [k, '-'] + rest;
    FirstPiece(tag, [k], '-');
    assert tag[2..] == rest;
  }

  /** The kind tests look only at the text before the first '-': the kind is `[k]` exactly when the tag is `[k]` or starts with `<k>-`. */
  lemma KindIsLetter(tag: string, k: char)
    requires k != '-'
    ensures Kind(tag) == [k] <==> tag == [k] || [k, '-'] <= tag
  {
    if [k, '-'] <= tag {
      ParseTag(k, tag[2..]);
      assert tag == [k, '-'] + tag[2..];
    }
  }

  /** Which of the three rewrite handlers a tag is dispatched to. */
  datatype TagClass = Unit | Begin | Last | Other

  /** The classification; its contract says the three tests are mutually exclusive and that `"O"` passes none of them. */
  function Classify(tag: string): (c: TagClass)
    ensures c == Unit <==> IsUnitTag(tag)
    ensures c == Begin <==> IsBeginTag(tag)
    ensures c == Last <==> IsLastTag(tag)
    ensures tag == Outside ==> c == Other
  {
    if IsUnitTag(tag) then Unit
    else if IsBeginTag(tag) then Begin
    else if IsLastTag(tag) then Last
    else Other
  }
}
