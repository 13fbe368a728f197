/** String helpers shared by the backup job and the system commenter. */
module Strings {
  /** `Array#join(sep)` */
  function JoinWith(xs: seq<string>, sep: string): string {
    if xs == [] then ""
    else if |xs| == 1 then xs[0]
    else xs[0] + sep + JoinWith(xs[1..], sep)
  }

  /** `x` occurs in `s` starting at position `k`. */
  predicate OccursAt(x: string, s: string, k: nat) {
    k + |x| <= |s| && s[k..k + |x|] == x
  }

  /** Every element of the list appears verbatim in the joined text. */
  lemma {:induction false} JoinWithContains(xs: seq<string>, sep: string, i: nat)
    requires i < |xs|
    ensures exists k: nat :: OccursAt(xs[i], JoinWith(xs, sep), k)
  {
    var j := JoinWith(xs, sep);
    if |xs| == 1 {
      assert OccursAt(xs[i], j, 0);
    } else if i == 0 {
      assert j[..|xs[0]|] == xs[0];
      assert OccursAt(xs[0], j, 0);
    } else {
      JoinWithContains(xs[1..], sep, i - 1);
      var rest := JoinWith(xs[1..], sep);
      var k: nat :| OccursAt(xs[1..][i - 1], rest, k);
      var pre := xs[0] + sep;
      assert j == pre + rest;
      assert j[|pre| + k..|pre| + k + |xs[i]|] == rest[k..k + |xs[i]|];
      assert OccursAt(xs[i], j, |pre| + k);
    }
  }

  /** A character absent from the separator and every element is absent from the joined text. */
  lemma {:induction false} JoinWithAvoids(xs: seq<string>, sep: string, c: char)
    requires c !in sep && forall i :: 0 <= i < |xs| ==> c !in xs[i]
    ensures c !in JoinWith(xs, sep)
  {
    if 1 < |xs| {
      JoinWithAvoids(xs[1..], sep, c);
      assert xs[0] + sep + JoinWith(xs[1..], sep) == JoinWith(xs, sep);
    }
  }

  lemma PrefixCancel(p: string, x: string, y: string)
    requires p + x == p + y
    ensures x == y
  {
    assert x == (p + x)[|p|..];
    assert y == (p + y)[|p|..];
  }

  /** Position of the first `d` in `s`. */
  function FirstIndexOf(s: string, d: char): (k: nat)
    requires d in s
    ensures k < |s| && s[k] == d
    ensures forall i :: 0 <= i < k ==> s[i] != d
  {
    if s[0] == d then 0 else 1 + FirstIndexOf(s[1..], d)
  }

  lemma FirstIndexAfter(a: string, r: string, d: char)
    requires d !in a
    ensures d in a + [d] + r && FirstIndexOf(a + [d] + r, d) == |a|
  {
    var s := a + [d] + r;
    assert s[|a|] == d;
    var k := FirstIndexOf(s, d);
    assert forall i :: 0 <= i < |a| ==> s[i] == a[i];
  }

  /** A delimiter that occurs in neither leading part marks where each ends. */
  lemma DelimiterSplits(a1: string, r1: string, a2: string, r2: string, d: char)
    requires d !in a1 && d !in a2
    requires a1 + [d] + r1 == a2 + [d] + r2
    ensures a1 == a2 && r1 == r2
  {
    var s := a1 + [d] + r1;
    FirstIndexAfter(a1, r1, d);
    FirstIndexAfter(a2, r2, d);
    assert a1 == s[..|a1|];
    assert a2 == (a2 + [d] + r2)[..|a2|];
    assert r1 == s[|a1| + 1..];
    assert r2 == (a2 + [d] + r2)[|a2| + 1..];
  }

  predicate EndsWith(s: string, tail: string) {
    |tail| <= |s| && s[|s| - |tail|..] == tail
  }

  lemma EndsWithSelf(a: string, b: string)
    ensures EndsWith(a + b, b)
  {
    assert (a + b)[|a + b| - |b|..] == b;
  }

  lemma EndsWithExtend(x: string, y: string, z: string)
    requires EndsWith(x, y)
    ensures EndsWith(x + z, y + z)
  {
    assert (x + z)[|x + z| - |y + z|..] == x[|x| - |y|..] + z;
  }

  lemma EndsWithPrepend(a: string, x: string, y: string)
    requires EndsWith(x, y)
    ensures EndsWith(a + x, y)
  {
    assert (a + x)[|a + x| - |y|..] == x[|x| - |y|..];
  }
}
