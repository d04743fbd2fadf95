/** Splitting and joining text on a separator character. */
module Strings {
  import opened Wrappers

  /** Splits `s` at its last occurrence of `c` into the text before and the text after it. */
  function SplitAtLast(s: string, c: char): (r: Option<(string, string)>)
    ensures r.None? <==> c !in s
    ensures r.Some? ==> s == r.value.0 + [c] + r.value.1 && c !in r.value.1
  {
    if |s| == 0 then None
    else if s[|s| - 1] == c then
      assert s == s[..|s| - 1] + [c] + "";
      Some((s[..|s| - 1], ""))
    else
      match SplitAtLast(s[..|s| - 1], c)
      case None =>
        assert s == s[..|s| - 1] + [s[|s| - 1]];
        None
      case Some((a, b)) =>
        assert s == s[..|s| - 1] + [s[|s| - 1]];
        Some((a, b + [s[|s| - 1]]))
  }

  /** The separator found is the one in front of a separator-free tail. */
  lemma {:induction false} SplitAtLastConcat(a: string, c: char, b: string)
    requires c !in b
    ensures SplitAtLast(a + [c] + b, c) == Some((a, b))
  {
    var s := a + [c] + b;
    if |b| == 0 {
      assert s[..|s| - 1] == a;
    } else {
      var b' := b[..|b| - 1];
      assert s[..|s| - 1] == a + [c] + b';
      assert c !in b' by {
        forall i | 0 <= i < |b'| ensures b'[i] != c {
          assert b'[i] == b[i];
        }
      }
      SplitAtLastConcat(a, c, b');
      assert b' + [b[|b| - 1]] == b;
    }
  }

  /** Glues the parts back together with `c` between neighbours. */
  function Join(parts: seq<string>, c: char): string {
    if |parts| == 0 then ""
    else if |parts| == 1 then parts[0]
    else Join(parts[..|parts| - 1], c) + [c] + parts[|parts| - 1]
  }

  /** Cuts `s` at every occurrence of `c`: the pieces hold no separator and
      joining them with `c` gives `s` back. */
  function Split(s: string, c: char): (r: seq<string>)
    ensures |r| >= 1
    ensures Join(r, c) == s
    ensures forall i :: 0 <= i < |r| ==> c !in r[i]
    decreases |s|
  {
    match SplitAtLast(s, c)
    case None => [s]
    case Some((a, b)) =>
      var front := Split(a, c);
      assert (front + [b])[..|front|] == front;
      front + [b]
  }

  lemma SplitNoSeparator(s: string, c: char)
    requires c !in s
    ensures Split(s, c) == [s]
  {
  }

  lemma SplitConcat(a: string, c: char, b: string)
    requires c !in b
    ensures Split(a + [c] + b, c) == Split(a, c) + [b]
  {
    SplitAtLastConcat(a, c, b);
  }

  lemma JoinThree(parts: seq<string>, c: char)
    requires |parts| == 3
    ensures Join(parts, c) == parts[0] + [c] + parts[1] + [c] + parts[2]
  {
    var front := parts[..2];
    assert front[..1] == [parts[0]];
    assert Join(front, c) == parts[0] + [c] + parts[1];
  }

  lemma JoinFour(parts: seq<string>, c: char)
    requires |parts| == 4
    ensures Join(parts, c) == parts[0] + [c] + parts[1] + [c] + parts[2] + [c] + parts[3]
  {
    JoinThree(parts[..3], c);
  }

  /** Joining separator-free pieces and splitting again gives the pieces back. */
  lemma {:induction false} SplitJoin(parts: seq<string>, c: char)
    requires |parts| >= 1
    requires forall i :: 0 <= i < |parts| ==> c !in parts[i]
    ensures Split(Join(parts, c), c) == parts
  {
    if |parts| == 1 {
      SplitNoSeparator(parts[0], c);
    } else {
      var front := parts[..|parts| - 1];
      var last := parts[|parts| - 1];
      assert forall i :: 0 <= i < |front| ==> front[i] == parts[i];
      SplitJoin(front, c);
      assert Join(parts, c) == Join(front, c) + [c] + last;
      SplitConcat(Join(front, c), c, last);
      assert front + [last] == parts;
    }
  }
}
