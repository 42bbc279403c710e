/** Order-preserving selection from a sequence, the shape of `Array.prototype.filter`. */
module Seqs {

  predicate NoDup<T(==)>(s: seq<T>) {
    forall i, j :: 0 <= i < j < |s| ==> s[i] != s[j]
  }

  /** `a` can be obtained from `b` by deleting elements: `a` keeps `b`'s order. */
  predicate Subseq<T(==)>(a: seq<T>, b: seq<T>)
    decreases |b|
  {
    if a == [] then true
    else if b == [] then false
    else if a[0] == b[0] then Subseq(a[1..], b[1..])
    else Subseq(a, b[1..])
  }

  lemma AppendAssoc<T>(a: seq<T>, b: seq<T>, c: seq<T>)
    ensures (a + b) + c == a + (b + c)
  {
  }

  lemma AppendEmpty<T>(a: seq<T>)
    ensures a + [] == a
  {
  }

  lemma {:induction false} SubseqMembers<T>(a: seq<T>, b: seq<T>)
    requires Subseq(a, b)
    ensures forall x :: x in a ==> x in b
    decreases |b|
  {
    if a != [] && b != [] {
      if a[0] == b[0] {
        SubseqMembers(a[1..], b[1..]);
        assert forall x :: x in a ==> x == a[0] || x in a[1..];
      } else {
        SubseqMembers(a, b[1..]);
      }
    }
  }

  /** A subsequence of a duplicate-free sequence is duplicate-free. */
  lemma {:induction false} SubseqNoDup<T>(a: seq<T>, b: seq<T>)
    requires Subseq(a, b) && NoDup(b)
    ensures NoDup(a)
    decreases |b|
  {
    if a != [] && b != [] {
      assert NoDup(b[1..]) by {
        forall i, j | 0 <= i < j < |b| - 1 ensures b[1..][i] != b[1..][j] {
          assert b[1..][i] == b[i + 1] && b[1..][j] == b[j + 1];
        }
      }
      if a[0] == b[0] {
        SubseqNoDup(a[1..], b[1..]);
        SubseqMembers(a[1..], b[1..]);
        assert b[0] !in b[1..];
        forall i, j | 0 <= i < j < |a| ensures a[i] != a[j] {
          if i == 0 {
            assert a[j] == a[1..][j - 1];
          } else {
            assert a[i] == a[1..][i - 1] && a[j] == a[1..][j - 1];
          }
        }
      } else {
        SubseqNoDup(a, b[1..]);
      }
    }
  }

  lemma {:induction false} SubseqOfEmpty<T>(a: seq<T>)
    requires Subseq(a, [])
    ensures a == []
  {
  }

  /** Two subsequences of one duplicate-free sequence with the same members
      are equal: selecting in order is determined by what is selected. */
  lemma {:induction false} SubseqUnique<T>(a: seq<T>, a': seq<T>, b: seq<T>)
    requires Subseq(a, b) && Subseq(a', b) && NoDup(b)
    requires forall x :: x in a <==> x in a'
    ensures a == a'
    decreases |b|
  {
    if b == [] {
      SubseqOfEmpty(a);
      SubseqOfEmpty(a');
    } else {
      assert NoDup(b[1..]) by {
        forall i, j | 0 <= i < j < |b| - 1 ensures b[1..][i] != b[1..][j] {
          assert b[1..][i] == b[i + 1] && b[1..][j] == b[j + 1];
        }
      }
      assert b[0] !in b[1..];
      var inA := a != [] && a[0] == b[0];
      var inA' := a' != [] && a'[0] == b[0];
      if inA {
        SubseqMembers(a[1..], b[1..]);
        SubseqNoDup(a, b);
      }
      if inA' {
        SubseqMembers(a'[1..], b[1..]);
        SubseqNoDup(a', b);
      }
      if !inA && a != [] {
        SubseqMembers(a, b[1..]);
      }
      if !inA' && a' != [] {
        SubseqMembers(a', b[1..]);
      }
      assert (b[0] in a) == inA by {
        if !inA && a != [] { assert b[0] !in a; }
      }
      assert (b[0] in a') == inA' by {
        if !inA' && a' != [] { assert b[0] !in a'; }
      }
      if inA && inA' {
        forall x ensures x in a[1..] <==> x in a'[1..] {
          assert x in a <==> x == a[0] || x in a[1..];
          assert x in a' <==> x == a'[0] || x in a'[1..];
          assert forall k :: 0 <= k < |a| - 1 ==> a[1..][k] == a[k + 1];
          assert forall k :: 0 <= k < |a'| - 1 ==> a'[1..][k] == a'[k + 1];
          assert a[0] !in a[1..];
          assert a'[0] !in a'[1..];
        }
        SubseqUnique(a[1..], a'[1..], b[1..]);
        assert a == [a[0]] + a[1..] && a' == [a'[0]] + a'[1..];
      } else {
        assert !inA && !inA';
        SubseqUnique(a, a', b[1..]);
      }
    }
  }

  lemma {:induction false} SubseqRefl<T>(a: seq<T>)
    ensures Subseq(a, a)
  {
    if a != [] {
      SubseqRefl(a[1..]);
    }
  }

  lemma {:induction false} SubseqPrepend<T>(a: seq<T>, x: T, b: seq<T>)
    requires Subseq(a, b)
    ensures Subseq(a, [x] + b)
    decreases |b|, 1
  {
    assert ([x] + b)[1..] == b;
    if a != [] && a[0] == x {
      SubseqTail(a, b);
    }
  }

  lemma SubseqCons<T>(x: T, a: seq<T>, b: seq<T>)
    requires Subseq(a, b)
    ensures Subseq([x] + a, [x] + b)
  {
    assert ([x] + a)[1..] == a;
    assert ([x] + b)[1..] == b;
  }

  lemma {:induction false} SubseqTail<T>(a: seq<T>, b: seq<T>)
    requires a != [] && Subseq(a, b)
    ensures Subseq(a[1..], b)
    decreases |b|, 0
  {
    assert [b[0]] + b[1..] == b;
    if a[0] == b[0] {
      SubseqPrepend(a[1..], b[0], b[1..]);
    } else {
      SubseqTail(a, b[1..]);
      SubseqPrepend(a[1..], b[0], b[1..]);
    }
  }

  /** Deleting from a subsequence gives a subsequence. */
  lemma {:induction false} SubseqTrans<T>(a: seq<T>, b: seq<T>, c: seq<T>)
    requires Subseq(a, b) && Subseq(b, c)
    ensures Subseq(a, c)
    decreases |c|
  {
    if a != [] {
      if b[0] == c[0] && a[0] == b[0] {
        SubseqTrans(a[1..], b[1..], c[1..]);
      } else {
        if b[0] == c[0] {
          SubseqTrans(a, b[1..], c[1..]);
        } else {
          SubseqTrans(a, b, c[1..]);
        }
        if a[0] == c[0] {
          SubseqTail(a, c[1..]);
        }
      }
    }
  }
}
