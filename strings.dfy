/**
 * Python's `str.split(sep)` for a one-character separator, and its inverse,
 * `sep.join(parts)`. Tags are parsed with these, so the model keeps their
 * exact behaviour: an empty string splits into one empty piece, and adjacent
 * separators give empty pieces.
 */
module Strings {

  /** Position of the first occurrence of `c` in `s`. */
  function IndexOf(s: string, c: char): (i: nat)
    requires c in s
    ensures i < |s| && s[i] == c && c !in s[..i]
  {
    if s[0] == c then 0
    else
      var j := IndexOf(s[1..], c);
      assert s[..j + 1] == [s[0]] + s[1..][..j];
      j + 1
  }

  /** `s.split(sep)`: the maximal runs of `s` that contain no `sep`, in order. */
  function Split(s: string, sep: char): (parts: seq<string>)
    ensures |parts| >= 1
    ensures |parts| == 1 <==> sep !in s
    ensures forall k :: 0 <= k < |parts| ==> sep !in parts[k]
    ensures parts[0] <= s
    ensures sep in s ==> |parts[0]| < |s| && s[|parts[0]|] == sep
    ensures sep !in s ==> parts[0] == s
    decreases |s|
  {
    if sep in s then
      var i := IndexOf(s, sep);
      [s[..i]] + Split(s[i + 1..], sep)
    else
      [s]
  }

  /** `sep.join(parts)`. */
  function Join(parts: seq<string>, sep: char): string
    requires |parts| >= 1
  {
    if |parts| == 1 then parts[0] else parts[0] + [sep] + Join(parts[1..], sep)
  }

  /** Splitting at the first separator: `p` is the first piece whenever `p + [sep]` starts `s`. */
  lemma FirstPiece(s: string, p: string, sep: char)
    requires p + [sep] <= s && sep !in p
    ensures Split(s, sep) == [p] + Split(s[|p| + 1..], sep)
  {
    assert s[..|p|] == p && s[|p|] == sep;
    var i := IndexOf(s, sep);
    assert i == |p|;
  }

  /** Joining the pieces of a split gives back the string. */
  lemma {:induction false} JoinSplit(s: string, sep: char)
    ensures Join(Split(s, sep), sep) == s
    decreases |s|
  {
    if sep in s {
      var i := IndexOf(s, sep);
      JoinSplit(s[i + 1..], sep);
      assert s == s[..i] + [sep] + s[i + 1..];
    }
  }

  /** Splitting a join of separator-free pieces gives back the pieces. */
  lemma {:induction false} SplitJoin(parts: seq<string>, sep: char)
    requires |parts| >= 1
    requires forall k :: 0 <= k < |parts| ==> sep !in parts[k]
    ensures Split(Join(parts, sep), sep) == parts
  {
    if |parts| > 1 {
      var head, tail := parts[0], parts[1..];
      var rest := Join(tail, sep);
      var s := head + [sep] + rest;
      assert Split(s, sep) == [head] + Split(rest, sep) by {
        assert head + [sep] <= s;
        assert s[|head| + 1..] == rest;
        FirstPiece(s, head, sep);
      }
      assert Split(rest, sep) == tail by {
        SplitJoin(tail, sep);
      }
      assert Join(parts, sep) == s;
      assert parts == [head] + tail;
    }
  }
}
