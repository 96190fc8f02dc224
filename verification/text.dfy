/** Python's `str.split` on one separator character, and its inverse. */
module Text {

  /** Index of the first occurrence of `d` in `s`. */
  function FirstIndex(s: string, d: char): (i: nat)
    requires d in s
    ensures i < |s| && s[i] == d
    ensures d !in s[..i]
  {
    if s[0] == d then 0
    else
      var j := FirstIndex(s[1..], d);
      assert s[..j + 1] == [s[0]] + s[1..][..j];
      j + 1
  }

  /** `s.split(d)`: the maximal pieces between the occurrences of `d`, in order. */
  function Split(s: string, d: char): (parts: seq<string>)
    ensures |parts| >= 1
    ensures forall k :: 0 <= k < |parts| ==> d !in parts[k]
    decreases |s|
  {
    if d !in s then [s]
    else
      var i := FirstIndex(s, d);
      [s[..i]] + Split(s[i + 1..], d)
  }

  /** `d.join(parts)`. */
  function Join(parts: seq<string>, d: char): string
    requires |parts| >= 1
  {
    if |parts| == 1 then parts[0] else parts[0] + [d] + Join(parts[1..], d)
  }

  /** Joining the pieces of a split gives the original text back. */
  lemma {:induction false} JoinSplit(s: string, d: char)
    ensures Join(Split(s, d), d) == s
    decreases |s|
  {
    if d in s {
      var i := FirstIndex(s, d);
      var rest := s[i + 1..];
      JoinSplit(rest, d);
      var parts := Split(s, d);
      assert parts == [s[..i]] + Split(rest, d);
      assert parts[1..] == Split(rest, d);
      assert s == s[..i] + [d] + rest;
    }
  }

  /** Splitting a join of pieces that do not contain the separator gives the pieces back. */
  lemma {:induction false} SplitJoin(parts: seq<string>, d: char)
    requires |parts| >= 1
    requires forall k :: 0 <= k < |parts| ==> d !in parts[k]
    ensures Split(Join(parts, d), d) == parts
  {
    if |parts| > 1 {
      var tail := parts[1..];
      assert forall k :: 0 <= k < |tail| ==> tail[k] == parts[k + 1];
      SplitJoin(tail, d);
      assert Join(parts, d) == parts[0] + [d] + Join(tail, d);
      SplitAtFirst(parts[0], Join(tail, d), d);
      assert parts == [parts[0]] + tail;
    } else {
      assert Join(parts, d) == parts[0];
    }
  }

  /** A text that starts with a separator-free piece and a separator splits there first. */
  lemma SplitAtFirst(p: string, rest: string, d: char)
    requires d !in p
    ensures Split(p + [d] + rest, d) == [p] + Split(rest, d)
  {
    var s := p + [d] + rest;
    assert s[|p|] == d;
    var i := FirstIndex(s, d);
    assert s[..|p|] == p;
    assert i == |p|;
    assert s[|p| + 1..] == rest;
  }

  /** `t` is the text of `s` after its last `d`, or all of `s` when `s` holds no `d`. */
  predicate IsLastPiece(s: string, t: string, d: char) {
    && d !in t
    && |t| <= |s| && s[|s| - |t|..] == t
    && (|t| < |s| ==> s[|s| - |t| - 1] == d)
  }

  /** `s.split(d)[-1]`. */
  function LastPiece(s: string, d: char): (t: string)
    ensures IsLastPiece(s, t, d)
  {
    var parts := Split(s, d);
    SplitEndsWithLastPiece(s, d);
    parts[|parts| - 1]
  }

  /** The last piece of a split is a suffix of the text, preceded by the separator unless it is all of it. */
  lemma {:induction false} SplitEndsWithLastPiece(s: string, d: char)
    ensures IsLastPiece(s, Split(s, d)[|Split(s, d)| - 1], d)
    decreases |s|
  {
    if d in s {
      var i := FirstIndex(s, d);
      var rest := s[i + 1..];
      SplitEndsWithLastPiece(rest, d);
      var tail := Split(rest, d);
      var t := tail[|tail| - 1];
      assert Split(s, d) == [s[..i]] + tail;
      LastPieceExtends(s, i, t, d);
    }
  }

  lemma LastPieceExtends(s: string, i: nat, t: string, d: char)
    requires i < |s| && s[i] == d
    requires IsLastPiece(s[i + 1..], t, d)
    ensures IsLastPiece(s, t, d)
  {
    var rest := s[i + 1..];
    assert s[|s| - |t|..] == rest[|rest| - |t|..];
    if |t| < |rest| {
      assert s[|s| - |t| - 1] == rest[|rest| - |t| - 1];
    }
  }
}
