/** Sequence helpers: the array methods the game's code relies on (filter, slice, includes). */
module Seqs {

  /** No element occurs twice. */
  ghost predicate Distinct<T>(s: seq<T>) {
    forall i, j | 0 <= i < j < |s| :: s[i] != s[j]
  }

  /** `a` is `b` with some elements removed, order kept. */
  ghost predicate IsSubseq<T>(a: seq<T>, b: seq<T>)
    decreases |b|
  {
    if |a| == 0 then true
    else if |b| == 0 then false
    else if a[0] == b[0] then IsSubseq(a[1..], b[1..])
    else IsSubseq(a, b[1..])
  }

  /** `s.filter(x => of.includes(x))`. */
  function Keep<T(==)>(s: seq<T>, of: seq<T>): (r: seq<T>)
    ensures forall x | x in r :: x in s && x in of
    ensures forall x | x in s && x in of :: x in r
    ensures |r| <= |s|
  {
    if |s| == 0 then []
    else (if s[0] in of then [s[0]] else []) + Keep(s[1..], of)
  }

  /** `s.filter(x => !of.includes(x))`. */
  function Drop<T(==)>(s: seq<T>, of: seq<T>): (r: seq<T>)
    ensures forall x | x in r :: x in s && x !in of
    ensures forall x | x in s && x !in of :: x in r
    ensures |r| <= |s|
  {
    if |s| == 0 then []
    else (if s[0] in of then [] else [s[0]]) + Drop(s[1..], of)
  }

  /** `s.slice(0, end)`: a negative end counts from the back, and the end is clamped to the length. */
  function Take<T>(s: seq<T>, end: int): (r: seq<T>)
    ensures r <= s
    ensures 0 <= end <= |s| ==> |r| == end
    ensures end > |s| ==> r == s
    ensures end < 0 ==> |r| == if |s| + end < 0 then 0 else |s| + end
  {
    var stop := if end < 0 then (if |s| + end < 0 then 0 else |s| + end)
                else if end > |s| then |s| else end;
    s[..stop]
  }

  /** Filtering a sequence by membership splits it: what is kept and what is dropped
      together hold every element exactly as often as the sequence does. */
  lemma {:induction false} KeepDropPartition<T>(s: seq<T>, of: seq<T>)
    ensures multiset(Keep(s, of)) + multiset(Drop(s, of)) == multiset(s)
  {
    if |s| > 0 {
      KeepDropPartition(s[1..], of);
      MultisetHeadTail(s);
      PartitionStep(s[0], of, Keep(s[1..], of), Drop(s[1..], of), s[1..]);
    }
  }

  lemma MultisetHeadTail<T>(s: seq<T>)
    requires |s| > 0
    ensures multiset(s) == multiset{s[0]} + multiset(s[1..])
  {
    assert s == [s[0]] + s[1..];
  }

  /** One element goes to exactly one side of the partition. */
  lemma PartitionStep<T>(x: T, of: seq<T>, k: seq<T>, d: seq<T>, tail: seq<T>)
    requires multiset(k) + multiset(d) == multiset(tail)
    ensures multiset((if x in of then [x] else []) + k) + multiset((if x in of then [] else [x]) + d)
            == multiset{x} + multiset(tail)
  {
  }

  /** Filtering keeps the relative order of the kept elements. */
  lemma {:induction false} KeepIsSubseq<T>(s: seq<T>, of: seq<T>)
    ensures IsSubseq(Keep(s, of), s)
  {
    if |s| > 0 {
      KeepIsSubseq(s[1..], of);
      if s[0] in of {
        assert Keep(s, of) == [s[0]] + Keep(s[1..], of);
        assert Keep(s, of)[1..] == Keep(s[1..], of);
      } else {
        assert Keep(s, of) == Keep(s[1..], of);
        SubseqSkip(Keep(s, of), s);
      }
    }
  }

  lemma {:induction false} DropIsSubseq<T>(s: seq<T>, of: seq<T>)
    ensures IsSubseq(Drop(s, of), s)
  {
    if |s| > 0 {
      DropIsSubseq(s[1..], of);
      if s[0] !in of {
        assert Drop(s, of) == [s[0]] + Drop(s[1..], of);
        assert Drop(s, of)[1..] == Drop(s[1..], of);
      } else {
        assert Drop(s, of) == Drop(s[1..], of);
        SubseqSkip(Drop(s, of), s);
      }
    }
  }

  /** If `a` is a subsequence of `b`'s tail, it is a subsequence of `b`. */
  lemma {:induction false} SubseqSkip<T>(a: seq<T>, b: seq<T>)
    requires |b| > 0
    requires IsSubseq(a, b[1..])
    ensures IsSubseq(a, b)
    decreases |b|, 0
  {
    if |a| > 0 && a[0] == b[0] {
      SubseqTail(a, b[1..]);
    }
  }

  /** Dropping the head of a subsequence keeps it a subsequence. */
  lemma {:induction false} SubseqTail<T>(a: seq<T>, b: seq<T>)
    requires |a| > 0
    requires IsSubseq(a, b)
    ensures IsSubseq(a[1..], b)
    decreases |b|, 1
  {
    if a[0] == b[0] {
      if |a| > 1 { SubseqSkip(a[1..], b); }
    } else {
      SubseqTail(a, b[1..]);
      SubseqSkip(a[1..], b);
    }
  }

  /** When every element of `s` is wanted, filtering changes nothing. */
  lemma {:induction false} KeepAll<T>(s: seq<T>, of: seq<T>)
    requires forall x | x in s :: x in of
    ensures Keep(s, of) == s
  {
    if |s| > 0 {
      KeepAll(s[1..], of);
      assert s == [s[0]] + s[1..];
    }
  }

  /** Filtering against any reordering of a list that holds every element of `s` changes nothing. */
  lemma KeepPermuted<T>(s: seq<T>, a: seq<T>, b: seq<T>)
    requires multiset(a) == multiset(b)
    requires forall x | x in s :: x in b
    ensures Keep(s, a) == s
  {
    forall x | x in s ensures x in a {
      assert x in multiset(b);
    }
    KeepAll(s, a);
  }

  /** Two prefixes of one sequence: the shorter is a prefix of the longer. */
  lemma PrefixesNest<T>(a: seq<T>, b: seq<T>, whole: seq<T>)
    requires a <= whole && b <= whole && |a| <= |b|
    ensures a <= b
  {
    assert forall i | 0 <= i < |a| :: a[i] == whole[i] == b[i];
  }

  /** Joining two duplicate-free sequences with no value in common gives a duplicate-free one. */
  lemma DistinctConcat<T>(a: seq<T>, b: seq<T>)
    requires Distinct(a) && Distinct(b)
    requires forall x | x in a :: x !in b
    ensures Distinct(a + b)
  {
    var ab := a + b;
    forall i, j | 0 <= i < j < |ab| ensures ab[i] != ab[j] {
      if j >= |a| && i < |a| {
        assert ab[j] == b[j - |a|];
        assert ab[i] in a;
      }
    }
  }

  /** Distinct values below `n` number at most `n` (pigeonhole). */
  lemma {:induction false} DistinctBelow(s: seq<nat>, n: nat)
    requires Distinct(s)
    requires forall x | x in s :: x < n
    ensures |s| <= n
  {
    var range := Range(n);
    var all := Elems(range);
    var seen := Elems(s);
    forall x | x in seen ensures x in all {
      assert range[x] == x;
    }
    DistinctCard(s);
    DistinctCard(range);
    assert |seen| == |s|;
    assert |all| == n;
    SubsetCard(seen, all);
  }

  /** `[0, 1, ..., n - 1]`. */
  function Range(n: nat): (r: seq<nat>)
    ensures |r| == n
    ensures forall i | 0 <= i < n :: r[i] == i
    ensures Distinct(r)
  {
    seq(n, i => i)
  }

  /** A duplicate-free sequence has as many distinct values as elements. */
  lemma {:induction false} DistinctCard<T>(s: seq<T>)
    requires Distinct(s)
    ensures |Elems(s)| == |s|
  {
    if |s| > 0 {
      var tail := s[1..];
      DistinctCard(tail);
      assert Elems(s) == Elems(tail) + {s[0]};
      assert s[0] !in tail by {
        forall j | 0 <= j < |tail| ensures tail[j] != s[0] {
          assert tail[j] == s[j + 1];
        }
      }
    } else {
      assert Elems(s) == {};
    }
  }

  /** The set of values a sequence holds. */
  function Elems<T>(s: seq<T>): (r: set<T>)
    ensures forall x | x in s :: x in r
    ensures forall x | x in r :: x in s
  {
    set x | x in s
  }

  lemma SubsetCard<T>(a: set<T>, b: set<T>)
    requires a <= b
    ensures |a| <= |b|
  {
    assert b == a + (b - a);
  }
}
