/** Order-preserving sub-sequences, used to say that an operation keeps the
    relative order of the elements it does not remove. */
module Subsequence {

  /** `a` can be obtained from `b` by deleting some of its elements. */
  ghost predicate IsSubseq<T>(a: seq<T>, b: seq<T>)
    decreases |b|
  {
    if |a| == 0 then true
    else if |b| == 0 then false
    else (a[0] == b[0] && IsSubseq(a[1..], b[1..])) || IsSubseq(a, b[1..])
  }

  lemma {:induction false} SubseqRefl<T>(s: seq<T>)
    ensures IsSubseq(s, s)
    decreases |s|
  {
    if |s| > 0 {
      SubseqRefl(s[1..]);
    }
  }

  /** Every element of a sub-sequence is an element of the whole. */
  lemma {:induction false} SubseqMembers<T>(a: seq<T>, b: seq<T>)
    requires IsSubseq(a, b)
    ensures forall x :: x in a ==> x in b
    decreases |b|
  {
    if |a| > 0 {
      if a[0] == b[0] && IsSubseq(a[1..], b[1..]) {
        SubseqMembers(a[1..], b[1..]);
        forall x | x in a ensures x in b {
          if x != a[0] {
            assert x in a[1..];
          }
        }
      } else {
        SubseqMembers(a, b[1..]);
      }
    }
  }

  lemma {:induction false} SubseqTrans<T>(a: seq<T>, b: seq<T>, c: seq<T>)
    requires IsSubseq(a, b) && IsSubseq(b, c)
    ensures IsSubseq(a, c)
    decreases |c|
  {
    if |a| == 0 {
    } else if IsSubseq(b, c[1..]) {
      SubseqTrans(a, b, c[1..]);
    } else {
      assert b[0] == c[0] && IsSubseq(b[1..], c[1..]);
      if a[0] == b[0] && IsSubseq(a[1..], b[1..]) {
        SubseqTrans(a[1..], b[1..], c[1..]);
      } else {
        SubseqTrans(a, b[1..], c[1..]);
      }
    }
  }

  /** A suffix is a sub-sequence. */
  lemma {:induction false} SubseqSuffix<T>(s: seq<T>, j: nat)
    requires j <= |s|
    ensures IsSubseq(s[j..], s)
    decreases j
  {
    if j == 0 {
      SubseqRefl(s);
    } else {
      SubseqSuffix(s[1..], j - 1);
      assert s[1..][j - 1..] == s[j..];
      if |s[j..]| > 0 {
        assert IsSubseq(s[j..], s[1..]);
      }
    }
  }

  /** A common prefix may be added on both sides. */
  lemma {:induction false} SubseqPrefix<T>(p: seq<T>, a: seq<T>, b: seq<T>)
    requires IsSubseq(a, b)
    ensures IsSubseq(p + a, p + b)
    decreases |p|
  {
    if |p| > 0 {
      SubseqPrefix(p[1..], a, b);
      assert (p + a)[1..] == p[1..] + a;
      assert (p + b)[1..] == p[1..] + b;
    } else {
      assert p + a == a && p + b == b;
    }
  }
}
