/** Sequence filtering as `Array.prototype.filter` does it, and the subsequence
    relation that characterises its result. */
module Seqs {

  /** `sub` is obtained from `s` by deleting elements, the rest kept in order. */
  ghost predicate SubsequenceOf<T>(sub: seq<T>, s: seq<T>)
    decreases |s|
  {
    if |sub| == 0 then true
    else if |s| == 0 then false
    else (sub[0] == s[0] && SubsequenceOf(sub[1..], s[1..])) || SubsequenceOf(sub, s[1..])
  }

  /** The elements of `s` satisfying `p`, in their original order. */
  function Filter<T(==,!new)>(p: T -> bool, s: seq<T>): (r: seq<T>)
    ensures |r| <= |s|
    ensures forall i :: 0 <= i < |r| ==> p(r[i])
    ensures SubsequenceOf(r, s)
  {
    if |s| == 0 then []
    else
      var rest := Filter(p, s[1..]);
      if p(s[0]) then [s[0]] + rest else rest
  }

  /** `Filter(p, s)` holds every `p`-element of `s` as often as `s` does, and
      nothing else. */
  lemma {:induction false} FilterContents<T(!new)>(p: T -> bool, s: seq<T>)
    ensures forall x :: multiset(Filter(p, s))[x] == if p(x) then multiset(s)[x] else 0
    ensures forall x :: x in Filter(p, s) <==> x in s && p(x)
    decreases |s|
  {
    if |s| > 0 {
      FilterContents(p, s[1..]);
      assert s == [s[0]] + s[1..];
    }
  }

  /** A subsequence of `s` made only of `p`-elements is no longer than `Filter(p, s)`. */
  lemma {:induction false} SubsequenceWithinFilter<T(!new)>(p: T -> bool, sub: seq<T>, s: seq<T>)
    requires SubsequenceOf(sub, s)
    requires forall i :: 0 <= i < |sub| ==> p(sub[i])
    ensures |sub| <= |Filter(p, s)|
    decreases |s|
  {
    if |sub| == 0 {
    } else if sub[0] == s[0] && SubsequenceOf(sub[1..], s[1..]) {
      SubsequenceWithinFilter(p, sub[1..], s[1..]);
    } else {
      SubsequenceWithinFilter(p, sub, s[1..]);
      assert |Filter(p, s[1..])| <= |Filter(p, s)|;
    }
  }

  /** `Filter(p, s)` is the only subsequence of `s` that consists of `p`-elements and
      is at least as long: the result is "exactly the matching elements, in order". */
  lemma {:induction false} FilterUnique<T(!new)>(p: T -> bool, sub: seq<T>, s: seq<T>)
    requires SubsequenceOf(sub, s)
    requires forall i :: 0 <= i < |sub| ==> p(sub[i])
    requires |sub| >= |Filter(p, s)|
    ensures sub == Filter(p, s)
    decreases |s|
  {
    if |s| == 0 {
    } else if p(s[0]) {
      assert Filter(p, s) == [s[0]] + Filter(p, s[1..]);
      if sub[0] == s[0] && SubsequenceOf(sub[1..], s[1..]) {
        FilterUnique(p, sub[1..], s[1..]);
      } else {
        SubsequenceWithinFilter(p, sub, s[1..]);
        assert false;
      }
    } else {
      assert Filter(p, s) == Filter(p, s[1..]);
      if |sub| > 0 {
        assert sub[0] != s[0];
        FilterUnique(p, sub, s[1..]);
      }
    }
  }
}
