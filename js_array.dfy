/** The JavaScript array operations the route handlers use, on immutable sequences:
    `indexOf`, `splice(start, 1)`, `filter`, the `reduce`-by-`concat` flattening, and
    the two notions of "subsequence" and "first occurrence" their contracts speak of. */
module JsArray {
  import opened Outcomes

  /** `Array.prototype.indexOf`: the first position of `x`, or -1. */
  function IndexOf<T(==)>(s: seq<T>, x: T): (i: int)
    ensures -1 <= i < |s|
    ensures i == -1 <==> x !in s
    ensures 0 <= i ==> s[i] == x && x !in s[..i]
  {
    if |s| == 0 then -1
    else if s[0] == x then 0
    else
      var j := IndexOf(s[1..], x);
      if j == -1 then -1
      else
        assert s[..j + 1] == [s[0]] + s[1..][..j];
        j + 1
  }

  /** `Array.prototype.splice(start, 1)`: the array left behind. A negative start counts
      back from the end (clamped at 0); a start at or past the end removes nothing. */
  function Splice1<T>(s: seq<T>, start: int): (r: seq<T>)
    ensures start == -1 && |s| > 0 ==> r == s[..|s| - 1]
    ensures |s| <= start ==> r == s
    ensures 0 <= start < |s| ==> |r| == |s| - 1 && multiset(r) == multiset(s) - multiset{s[start]}
  {
    var k := if 0 <= start then start else if 0 <= |s| + start then |s| + start else 0;
    if k < |s| then
      assert s == s[..k] + [s[k]] + s[k + 1..];
      s[..k] + s[k + 1..]
    else s
  }

  /** `Array.prototype.filter` with a side-effect-free predicate. */
  function Filter<T(!new)>(s: seq<T>, keep: T -> bool): (r: seq<T>)
    ensures |r| <= |s|
    ensures forall x :: x in r <==> x in s && keep(x)
  {
    if |s| == 0 then []
    else if keep(s[0]) then [s[0]] + Filter(s[1..], keep)
    else Filter(s[1..], keep)
  }

  /** The `filter(e => e === x).length > 0` membership test the handlers use. */
  function Occurs<T(==,!new)>(s: seq<T>, x: T): (b: bool)
    ensures b <==> x in s
  {
    var hits := Filter(s, (y: T) => y == x);
    if |hits| > 0 then assert hits[0] in hits; true else false
  }

  /** No value appears twice. */
  ghost predicate NoRepeats<T>(s: seq<T>)
  {
    forall i, j :: 0 <= i < j < |s| ==> s[i] != s[j]
  }

  /** `lists.reduce((prev, next) => prev.concat(next))` on a non-empty list, and `[]` on an empty one. */
  function Flatten<T>(lists: seq<seq<T>>): seq<T>
  {
    if |lists| == 0 then [] else Flatten(lists[..|lists| - 1]) + lists[|lists| - 1]
  }

  /** `a` is `b` with some elements left out, order kept. */
  ghost predicate IsSubseq<T>(a: seq<T>, b: seq<T>)
    decreases |b|
  {
    if |a| == 0 then true
    else if |b| == 0 then false
    else if a[0] == b[0] then IsSubseq(a[1..], b[1..])
    else IsSubseq(a, b[1..])
  }

  /** The first element of `s` whose key is `k`, if any. */
  function FirstWith<T, K(==)>(s: seq<T>, key: T -> K, k: K): Option<T>
  {
    if |s| == 0 then None else if key(s[0]) == k then Some(s[0]) else FirstWith(s[1..], key, k)
  }

  /** The keys occurring in `s`. */
  ghost function Keys<T, K>(s: seq<T>, key: T -> K): set<K>
  {
    set x | x in s :: key(x)
  }

  /** No two entries of `s` share a key. */
  ghost predicate DistinctKeys<T, K>(s: seq<T>, key: T -> K)
  {
    forall i, j :: 0 <= i < j < |s| ==> key(s[i]) != key(s[j])
  }

  /** De-duplication by key that keeps the first occurrence of every key: the
      evident intent of every de-duplication step in the route handlers. */
  function KeepFirst<T(!new), K(==)>(s: seq<T>, key: T -> K): (r: seq<T>)
    ensures |r| <= |s|
    ensures forall x :: x in r ==> x in s
    ensures DistinctKeys(r, key)
    decreases |s|
  {
    if |s| == 0 then []
    else
      var rest := Filter(s[1..], x => key(x) != key(s[0]));
      var tail := KeepFirst(rest, key);
      assert forall x :: x in tail ==> x in s[1..] && key(x) != key(s[0]);
      [s[0]] + tail
  }

  // ---------------------------------------------------------------------------
  // Lemmas

  /** Prepending a value not yet present keeps a list free of repeats. */
  lemma PrependKeepsNoRepeats<T>(x: T, s: seq<T>)
    requires NoRepeats(s) && x !in s
    ensures NoRepeats([x] + s)
  {
    forall i, j | 0 <= i < j < |[x] + s|
      ensures ([x] + s)[i] != ([x] + s)[j]
    {
      if i == 0 {
        assert ([x] + s)[j] == s[j - 1];
      } else {
        assert ([x] + s)[i] == s[i - 1] && ([x] + s)[j] == s[j - 1];
      }
    }
  }

  /** Taking one `x` out of a multiset lowers the count of `x` by one, if it was there. */
  lemma CountAfterRemove<T>(m: multiset<T>, q: multiset<T>, x: T, y: T)
    requires q == m - multiset{x}
    ensures q[y] == if x == y && m[y] > 0 then m[y] - 1 else m[y]
  {
  }

  /** Splicing at the position `indexOf` found removes exactly the first `x`. */
  lemma SpliceIndexOf<T>(s: seq<T>, x: T)
    requires x in s
    ensures var i := IndexOf(s, x);
      Splice1(s, i) == s[..i] + s[i + 1..] && multiset(Splice1(s, i)) == multiset(s) - multiset{x}
  {
    var i := IndexOf(s, x);
    SpliceAt(s, i);
    assert s[i] == x;
  }

  /** Splicing at `indexOf(x)` cuts out the first occurrence of `x`. */
  lemma CutFirst<T>(s: seq<T>, x: T)
    requires x in s
    ensures exists i :: 0 <= i < |s| && s[i] == x && x !in s[..i] && Splice1(s, IndexOf(s, x)) == s[..i] + s[i + 1..]
  {
    SpliceIndexOf(s, x);
  }

  /** `splice(i, 1)` at an index inside the list cuts out exactly that element. */
  lemma SpliceAt<T>(s: seq<T>, i: int)
    requires 0 <= i < |s|
    ensures Splice1(s, i) == s[..i] + s[i + 1..]
  {
  }

  /** Every element before the index `indexOf` finds differs from the value sought. */
  lemma IndexOfFirst<T>(s: seq<T>, x: T, k: int)
    requires 0 <= k < IndexOf(s, x)
    ensures s[k] != x
  {
    assert s[k] == s[..IndexOf(s, x)][k];
  }

  /** Removing the first occurrence from a list without repeats removes the value entirely. */
  lemma SpliceIndexOfRemovesAll<T>(s: seq<T>, x: T)
    requires x in s && NoRepeats(s)
    ensures x !in Splice1(s, IndexOf(s, x))
  {
    var i := IndexOf(s, x);
    SpliceIndexOf(s, x);
    var r := Splice1(s, i);
    forall k | 0 <= k < |r|
      ensures r[k] != x
    {
      if k < i {
        assert r[k] == s[k];
      } else {
        assert r[k] == s[k + 1];
      }
    }
  }

  lemma {:induction false} SubseqDropHead<T>(a: seq<T>, b: seq<T>)
    requires |b| > 0 && IsSubseq(a, b[1..])
    ensures IsSubseq(a, b)
    decreases |b|, 0
  {
    if |a| > 0 && a[0] == b[0] {
      SubseqTail(a, b[1..]);
    }
  }

  lemma {:induction false} SubseqTail<T>(a: seq<T>, b: seq<T>)
    requires |a| > 0 && IsSubseq(a, b)
    ensures IsSubseq(a[1..], b)
    decreases |b|, 1
  {
    if a[0] != b[0] {
      SubseqTail(a, b[1..]);
    }
    SubseqDropHead(a[1..], b);
  }

  /** Leaving elements out twice is leaving elements out. */
  lemma {:induction false} SubseqTrans<T>(a: seq<T>, b: seq<T>, c: seq<T>)
    requires IsSubseq(a, b) && IsSubseq(b, c)
    ensures IsSubseq(a, c)
    decreases |c|
  {
    if |a| > 0 {
      if b[0] == c[0] {
        if a[0] == b[0] {
          SubseqTrans(a[1..], b[1..], c[1..]);
        } else {
          SubseqTrans(a, b[1..], c[1..]);
          SubseqDropHead(a, c);
        }
      } else {
        SubseqTrans(a, b, c[1..]);
        SubseqDropHead(a, c);
      }
    }
  }

  /** `filter` keeps every occurrence of what it keeps and none of the rest. */
  lemma {:induction false} FilterCount<T(!new)>(s: seq<T>, keep: T -> bool, x: T)
    ensures multiset(Filter(s, keep))[x] == if keep(x) then multiset(s)[x] else 0
  {
    if |s| > 0 {
      FilterCount(s[1..], keep, x);
      assert s == [s[0]] + s[1..];
    }
  }

  /** `filter` keeps the order of what it keeps. */
  lemma {:induction false} FilterIsSubseq<T(!new)>(s: seq<T>, keep: T -> bool)
    ensures IsSubseq(Filter(s, keep), s)
  {
    if |s| > 0 {
      FilterIsSubseq(s[1..], keep);
      if !keep(s[0]) {
        SubseqDropHead(Filter(s, keep), s);
      }
    }
  }

  /** The elements of a subsequence come from the whole. */
  lemma {:induction false} SubseqMultiset<T>(a: seq<T>, b: seq<T>)
    requires IsSubseq(a, b)
    ensures multiset(a) <= multiset(b)
    decreases |b|
  {
    if |a| > 0 {
      assert b == [b[0]] + b[1..];
      if a[0] == b[0] {
        SubseqMultiset(a[1..], b[1..]);
        assert a == [a[0]] + a[1..];
      } else {
        SubseqMultiset(a, b[1..]);
      }
    }
  }

  /** `KeepFirst` keeps the order of what it keeps. */
  lemma {:induction false} KeepFirstIsSubseq<T(!new), K>(s: seq<T>, key: T -> K)
    ensures IsSubseq(KeepFirst(s, key), s)
    decreases |s|
  {
    if |s| > 0 {
      var rest := Filter(s[1..], x => key(x) != key(s[0]));
      KeepFirstIsSubseq(rest, key);
      FilterIsSubseq(s[1..], x => key(x) != key(s[0]));
      SubseqTrans(KeepFirst(rest, key), rest, s[1..]);
    }
  }

  /** `KeepFirst` never loses a key entirely. */
  lemma {:induction false} KeepFirstKeys<T(!new), K>(s: seq<T>, key: T -> K)
    ensures Keys(KeepFirst(s, key), key) == Keys(s, key)
    decreases |s|
  {
    if |s| > 0 {
      var rest := Filter(s[1..], x => key(x) != key(s[0]));
      KeepFirstKeys(rest, key);
      var tail := KeepFirst(rest, key);
      assert KeepFirst(s, key) == [s[0]] + tail;
      assert Keys([s[0]] + tail, key) == {key(s[0])} + Keys(tail, key);
      assert Keys(rest, key) == Keys(s[1..], key) - {key(s[0])};
      assert s == [s[0]] + s[1..];
      assert Keys(s, key) == {key(s[0])} + Keys(s[1..], key);
    }
  }

  /** On a list with no repeated key, `KeepFirst` removes nothing. */
  lemma {:induction false} KeepFirstDistinct<T(!new), K>(s: seq<T>, key: T -> K)
    requires DistinctKeys(s, key)
    ensures KeepFirst(s, key) == s
    decreases |s|
  {
    if |s| > 0 {
      var rest := Filter(s[1..], x => key(x) != key(s[0]));
      FilterAll(s[1..], x => key(x) != key(s[0]));
      KeepFirstDistinct(s[1..], key);
    }
  }

  /** A filter whose predicate holds throughout removes nothing. */
  lemma {:induction false} FilterAll<T(!new)>(s: seq<T>, keep: T -> bool)
    requires forall i :: 0 <= i < |s| ==> keep(s[i])
    ensures Filter(s, keep) == s
  {
    if |s| > 0 {
      FilterAll(s[1..], keep);
    }
  }

  /** Flattening distributes over appending one more list. */
  lemma FlattenSnoc<T>(lists: seq<seq<T>>, last: seq<T>)
    ensures Flatten(lists + [last]) == Flatten(lists) + last
  {
    assert (lists + [last])[..|lists|] == lists;
  }

  /** Flattening distributes over prepending one more list. */
  lemma {:induction false} FlattenCons<T>(first: seq<T>, lists: seq<seq<T>>)
    ensures Flatten([first] + lists) == first + Flatten(lists)
    decreases |lists|
  {
    if |lists| > 0 {
      var init := lists[..|lists| - 1];
      var last := lists[|lists| - 1];
      assert [first] + lists == ([first] + init) + [last];
      assert lists == init + [last];
      FlattenSnoc([first] + init, last);
      FlattenCons(first, init);
      FlattenSnoc(init, last);
    }
  }

  lemma {:induction false} SubseqRefl<T>(s: seq<T>)
    ensures IsSubseq(s, s)
    decreases |s|
  {
    if |s| > 0 {
      SubseqRefl(s[1..]);
    }
  }

  /** Splicing one element out leaves a subsequence. */
  lemma {:induction false} DropOneSubseq<T>(s: seq<T>, j: nat)
    requires j < |s|
    ensures IsSubseq(s[..j] + s[j + 1..], s)
    decreases j
  {
    if j == 0 {
      assert s[..0] + s[1..] == s[1..];
      SubseqRefl(s[1..]);
      SubseqDropHead(s[1..], s);
    } else {
      var a := s[..j] + s[j + 1..];
      DropOneSubseq(s[1..], j - 1);
      assert a[0] == s[0];
      assert a[1..] == s[1..][..j - 1] + s[1..][j..];
    }
  }
}
