/**
 * The per-kind rewrite rules: when a coarse token was split into several
 * fine tokens, a Unit, Begin or Last tag is re-kinded on each fragment so
 * that the entity still has one Begin and one Last.
 */
module Rewrite {
  import opened Wrappers
  import opened Tags
  import opened Neighbours

  /** `f"{kind}-{_get_label(tag)}"`; `None` where `_get_label` raises. */
  function Retag(kind: char, tag: string): (r: Option<string>)
    requires kind != '-'
    ensures r.Some? <==> '-' in tag
    ensures r.Some? ==> r.value == [kind, '-'] + GetLabel(tag).value
    ensures r.Some? ==> Kind(r.value) == [kind] && GetLabel(r.value) == GetLabel(tag)
  {
    match GetLabel(tag)
    case None => None
    case Some(entity) =>
      ParseTag(kind, entity);
      assert Kind(entity) == entity;
      Some([kind, '-'] + entity)
  }

  /**
   * `_handle_unit_tag`: a Unit fragment with the same coarse token on both
   * sides is Inside, with it only before is Last, only after is Begin, and
   * an unsplit Unit tag is kept.
   */
  function HandleUnitTag(tag: string, tokens: Alignment, cur: nat, tokNum: nat): (r: Option<string>)
    ensures var prev, next := PrevTokenIsSame(tokens, cur, tokNum), NextTokenIsSame(tokens, cur, tokNum);
      r.Some? <==> prev.Some? && next.Some? && (prev.value || next.value ==> '-' in tag)
    ensures var prev, next := PrevTokenIsSame(tokens, cur, tokNum), NextTokenIsSame(tokens, cur, tokNum);
      r.Some? ==>
        (!prev.value && !next.value ==> r.value == tag) &&
        (prev.value && next.value ==> r.value == "I-" + GetLabel(tag).value) &&
        (prev.value && !next.value ==> r.value == "L-" + GetLabel(tag).value) &&
        (!prev.value && next.value ==> r.value == "B-" + GetLabel(tag).value)
  {
    match PrevTokenIsSame(tokens, cur, tokNum)
    case None => None
    case Some(prevMatch) =>
      match NextTokenIsSame(tokens, cur, tokNum)
      case None => None
      case Some(nextMatch) =>
        if prevMatch && nextMatch then Retag('I', tag)
        else if prevMatch then Retag('L', tag)
        else if nextMatch then Retag('B', tag)
        else Some(tag)
  }

  /**
   * `_handle_begin_tag`: a Begin fragment that continues the previous fine
   * token's coarse token is Inside; the first fragment keeps its tag.
   */
  function HandleBeginTag(tag: string, tokens: Alignment, cur: nat, tokNum: nat): (r: Option<string>)
    ensures var prev := PrevTokenIsSame(tokens, cur, tokNum);
      r.Some? <==> prev.Some? && (prev.value ==> '-' in tag)
    ensures var prev := PrevTokenIsSame(tokens, cur, tokNum);
      r.Some? ==>
        (!prev.value ==> r.value == tag) &&
        (prev.value ==> r.value == "I-" + GetLabel(tag).value)
  {
    match PrevTokenIsSame(tokens, cur, tokNum)
    case None => None
    case Some(prevMatch) => if prevMatch then Retag('I', tag) else Some(tag)
  }

  /**
   * `_handle_last_tag`: a Last fragment followed by more of its coarse token
   * is Inside; the final fragment keeps its tag.
   */
  function HandleLastTag(tag: string, tokens: Alignment, cur: nat, tokNum: nat): (r: Option<string>)
    ensures var next := NextTokenIsSame(tokens, cur, tokNum);
      r.Some? <==> next.Some? && (next.value ==> '-' in tag)
    ensures var next := NextTokenIsSame(tokens, cur, tokNum);
      r.Some? ==>
        (!next.value ==> r.value == tag) &&
        (next.value ==> r.value == "I-" + GetLabel(tag).value)
  {
    match NextTokenIsSame(tokens, cur, tokNum)
    case None => None
    case Some(nextMatch) => if nextMatch then Retag('I', tag) else Some(tag)
  }

  /**
   * The tag emitted for coarse token `tokNum` of fine token `cur`: the
   * `if`/`elif` dispatch of the loop body. Other tags (`"O"`, Inside, anything
   * unrecognised) pass through; a rewrite keeps the label.
   */
  function CleanTag(tokens: Alignment, cur: nat, tokNum: nat, tag: string): (r: Option<string>)
    ensures Classify(tag) == Other ==> r == Some(tag)
    ensures r.Some? && r.value != tag ==> '-' in tag && GetLabel(r.value) == GetLabel(tag)
  {
    match Classify(tag)
    case Unit => HandleUnitTag(tag, tokens, cur, tokNum)
    case Begin => HandleBeginTag(tag, tokens, cur, tokNum)
    case Last => HandleLastTag(tag, tokens, cur, tokNum)
    case Other => Some(tag)
  }

  // The rewrite table, stated independently of the handlers: a fragment
  // begins its entity when the coarse tag begins one and no earlier fragment
  // shares its coarse token, and ends it when the coarse tag ends one and no
  // later fragment does.

  predicate BeginsEntity(kind: char)
  {
    kind == 'U' || kind == 'B'
  }

  predicate EndsEntity(kind: char)
  {
    kind == 'U' || kind == 'L'
  }

  /** The BILOU kind of a fragment that does or does not begin and end its entity. */
  function FragmentKind(begins: bool, ends: bool): char
  {
    if begins && ends then 'U' else if begins then 'B' else if ends then 'L' else 'I'
  }

  /** The corrected kind of a fragment of a coarse tag of kind `kind` (one of B, I, L, U). */
  function CorrectedKind(kind: char, prevSame: bool, nextSame: bool): char
  {
    FragmentKind(BeginsEntity(kind) && !prevSame, EndsEntity(kind) && !nextSame)
  }

  /**
   * The handlers implement the table: on an entity tag `<k>-<rest>`, once
   * the neighbours the handler consults are known, the emitted tag is the
   * tag itself when its kind is unchanged and `<corrected kind>-<label>`
   * otherwise. The Begin handler never consults the next fine token and the
   * Last handler never the previous one.
   */
  lemma CleanTagFollowsTable(tokens: Alignment, cur: nat, tokNum: nat, k: char, rest: string, prev: bool, next: bool)
    requires k == 'U' || k == 'B' || k == 'L' || k == 'I'
    requires k != 'L' && k != 'I' ==> PrevTokenIsSame(tokens, cur, tokNum) == Some(prev)
    requires k != 'B' && k != 'I' ==> NextTokenIsSame(tokens, cur, tokNum) == Some(next)
    ensures k == 'B' ==> CorrectedKind(k, prev, false) == CorrectedKind(k, prev, true)
    ensures k == 'L' ==> CorrectedKind(k, false, next) == CorrectedKind(k, true, next)
    ensures var tag, ck := [k, '-'] + rest, CorrectedKind(k, prev, next);
      CleanTag(tokens, cur, tokNum, tag) == if ck == k then Some(tag) else Some([ck, '-'] + Kind(rest))
  {
    var tag := [k, '-'] + rest;
    ParseTag(k, rest);
    assert '-' in tag by {
      assert tag[1] == '-';
    }
    assert tag != Outside;
    var entity := Kind(rest);
    if k != 'I' {
      ParseTag(CorrectedKind(k, prev, next), entity);
      assert Kind(entity) == entity;
    }
  }
}
