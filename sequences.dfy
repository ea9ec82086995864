/**
 * Order-preserving duplicate removal, as an insertion-ordered JavaScript
 * `Set` or a `Map` keyed by first appearance produces it.
 */
module Sequences {

  predicate NoDup<T(==)>(s: seq<T>) {
    forall i, j :: 0 <= i < j < |s| ==> s[i] != s[j]
  }

  /** Each element once, at the place it first appears. */
  function Dedup<T(==)>(s: seq<T>): (r: seq<T>)
    ensures |r| <= |s|
  {
    if s == [] then []
    else
      var d := Dedup(s[..|s| - 1]);
      var x := s[|s| - 1];
      if x in d then d else d + [x]
  }

  /** The deduplicated sequence holds the same elements, each once. */
  lemma {:induction false} DedupProperties<T>(s: seq<T>)
    ensures forall i :: 0 <= i < |Dedup(s)| ==> Dedup(s)[i] in s
    ensures forall i :: 0 <= i < |s| ==> s[i] in Dedup(s)
    ensures NoDup(Dedup(s))
  {
    if s != [] {
      var front, x := s[..|s| - 1], s[|s| - 1];
      DedupProperties(front);
      assert s == front + [x];
      assert forall i :: 0 <= i < |s| - 1 ==> s[i] == front[i];
    }
  }

  /** The position of the first occurrence of `x`, or `|s|` when there is none. */
  function IndexOf<T(==)>(s: seq<T>, x: T): (i: nat)
    ensures i <= |s| && (i < |s| <==> x in s)
    ensures i < |s| ==> s[i] == x
    ensures forall k :: 0 <= k < i ==> s[k] != x
  {
    if s == [] then 0 else if s[0] == x then 0 else 1 + IndexOf(s[1..], x)
  }

  /** In a duplicate-free sequence an element's first position is its only position. */
  lemma IndexOfNoDup<T>(s: seq<T>, k: nat)
    requires NoDup(s) && k < |s|
    ensures IndexOf(s, s[k]) == k
  {
  }

  /** Membership is the same before and after removing duplicates. */
  lemma DedupHas<T>(s: seq<T>, x: T)
    ensures x in Dedup(s) <==> x in s
  {
    DedupProperties(s);
    if x in Dedup(s) {
      var i :| 0 <= i < |Dedup(s)| && Dedup(s)[i] == x;
    }
    if x in s {
      var i :| 0 <= i < |s| && s[i] == x;
    }
  }

  /** `a` is a prefix of `b`. */
  predicate IsPrefix<T(==)>(a: seq<T>, b: seq<T>) {
    |a| <= |b| && b[..|a|] == a
  }

  /** Feeding one more element appends it exactly when it is new. */
  lemma DedupSnoc<T>(s: seq<T>, x: T)
    ensures Dedup(s + [x]) == if x in s then Dedup(s) else Dedup(s) + [x]
  {
    assert (s + [x])[..|s|] == s;
    DedupHas(s, x);
  }

  /** Extending the input only appends to the deduplicated prefix. */
  lemma {:induction false} DedupPrefix<T>(s: seq<T>, t: seq<T>)
    ensures IsPrefix(Dedup(s), Dedup(s + t))
    decreases |t|
  {
    if t == [] {
      assert s + t == s;
    } else {
      var u := s + t[..|t| - 1];
      var x := t[|t| - 1];
      DedupPrefix(s, t[..|t| - 1]);
      assert s + t == u + [x];
      DedupSnoc(u, x);
      PrefixOfSnoc(Dedup(s), Dedup(u), x in u, x);
    }
  }

  lemma PrefixOfSnoc<T>(a: seq<T>, b: seq<T>, same: bool, x: T)
    requires IsPrefix(a, b)
    ensures IsPrefix(a, if same then b else b + [x])
  {
    if !same {
      assert (b + [x])[..|a|] == b[..|a|];
    }
  }

  /** The deduplicated prefix before an element's first occurrence ends just before it. */
  lemma DedupAtFirstOccurrence<T>(s: seq<T>, p: nat)
    requires p < |s| && s[p] !in s[..p]
    ensures |Dedup(s[..p])| < |Dedup(s)| && Dedup(s)[|Dedup(s[..p])|] == s[p]
  {
    var pre := s[..p];
    assert s[..p + 1] == pre + [s[p]];
    DedupSnoc(pre, s[p]);
    assert s == s[..p + 1] + s[p + 1..];
    DedupPrefix(s[..p + 1], s[p + 1..]);
    var d := Dedup(s[..p + 1]);
    assert d[|Dedup(pre)|] == s[p];
    assert Dedup(s)[..|d|] == d;
    assert Dedup(s)[|Dedup(pre)|] == d[|Dedup(pre)|];
  }

  /** The rank of an element is the number of distinct elements before its first occurrence. */
  lemma DedupRank<T>(s: seq<T>, j: nat)
    requires j < |Dedup(s)|
    ensures IndexOf(s, Dedup(s)[j]) < |s|
    ensures |Dedup(s[..IndexOf(s, Dedup(s)[j])])| == j
  {
    var y := Dedup(s)[j];
    DedupProperties(s);
    var p := IndexOf(s, y);
    assert y !in s[..p];
    DedupAtFirstOccurrence(s, p);
    IndexOfNoDup(Dedup(s), j);
    IndexOfNoDup(Dedup(s), |Dedup(s[..p])|);
  }

  /** An element ranked within the distinct prefix of `s[..p]` first occurs before `p`. */
  lemma DedupRankBefore<T>(s: seq<T>, p: nat, i: nat)
    requires p <= |s| && i < |Dedup(s[..p])|
    ensures i < |Dedup(s)| && IndexOf(s, Dedup(s)[i]) < p
  {
    var pre := s[..p];
    assert s == pre + s[p..];
    DedupPrefix(pre, s[p..]);
    DedupProperties(pre);
    var x := Dedup(pre)[i];
    assert x == Dedup(s)[i];
    assert x in pre;
    var q := IndexOf(pre, x);
    assert s[q] == x;
  }

  /**
   * First-appearance order: an element listed before another appears in the
   * input before the other's first appearance.
   */
  lemma DedupFirstAppearanceOrder<T>(s: seq<T>, i: nat, j: nat)
    requires i < j < |Dedup(s)|
    ensures IndexOf(s, Dedup(s)[i]) < IndexOf(s, Dedup(s)[j]) < |s|
  {
    DedupRank(s, j);
    DedupRankBefore(s, IndexOf(s, Dedup(s)[j]), i);
  }

  /** `f` applied to each element, the results concatenated in order. */
  function ConcatMap<T, U>(s: seq<T>, f: T -> seq<U>): seq<U> {
    if s == [] then [] else ConcatMap(s[..|s| - 1], f) + f(s[|s| - 1])
  }

  lemma ConcatMapSnoc<T, U>(s: seq<T>, x: T, f: T -> seq<U>)
    ensures ConcatMap(s + [x], f) == ConcatMap(s, f) + f(x)
  {
    assert (s + [x])[..|s|] == s;
  }

  lemma {:induction false} ConcatMapConcat<T, U>(a: seq<T>, b: seq<T>, f: T -> seq<U>)
    ensures ConcatMap(a + b, f) == ConcatMap(a, f) + ConcatMap(b, f)
    decreases |b|
  {
    if b == [] {
      assert a + b == a;
    } else {
      var front, x := b[..|b| - 1], b[|b| - 1];
      ConcatMapConcat(a, front, f);
      assert a + b == (a + front) + [x];
      ConcatMapSnoc(a + front, x, f);
    }
  }

  /** With blocks of `n` elements each, the result has `n` per input element. */
  lemma {:induction false} ConcatMapLength<T, U>(s: seq<T>, f: T -> seq<U>, n: nat)
    requires forall x :: |f(x)| == n
    ensures |ConcatMap(s, f)| == n * |s|
  {
    if s != [] {
      var front := s[..|s| - 1];
      ConcatMapLength(front, f, n);
      assert ConcatMap(s, f) == ConcatMap(front, f) + f(s[|s| - 1]);
      assert n * |s| == n * |front| + n;
    }
  }

  /** The result splits around element `k` into the blocks before, its own block, and the blocks after. */
  lemma ConcatMapAround<T, U>(s: seq<T>, f: T -> seq<U>, k: nat)
    requires k < |s|
    ensures ConcatMap(s, f) == ConcatMap(s[..k], f) + f(s[k]) + ConcatMap(s[k + 1..], f)
  {
    var before, x, after := s[..k], s[k], s[k + 1..];
    assert s == (before + [x]) + after;
    ConcatMapSnoc(before, x, f);
    ConcatMapConcat(before + [x], after, f);
    assert ConcatMap(s, f) == (ConcatMap(before, f) + f(x)) + ConcatMap(after, f);
  }

  /** With blocks of `n` elements each, block `k` of the result is `f(s[k])`. */
  lemma ConcatMapBlock<T, U>(s: seq<T>, f: T -> seq<U>, n: nat, k: nat)
    requires forall x :: |f(x)| == n
    requires k < |s|
    ensures |ConcatMap(s, f)| == n * |s|
    ensures n * k + n <= |ConcatMap(s, f)|
    ensures ConcatMap(s, f)[n * k..n * k + n] == f(s[k])
  {
    ConcatMapLength(s, f, n);
    ConcatMapLength(s[..k], f, n);
    ConcatMapAround(s, f, k);
    SliceOfMiddle(ConcatMap(s[..k], f), f(s[k]), ConcatMap(s[k + 1..], f), 0, n);
  }

  lemma AppendAssoc<T>(a: seq<T>, b: seq<T>, c: seq<T>)
    ensures a + b + c == a + (b + c)
  {
  }

  /** A slice inside the middle part of `a + b + c`. */
  lemma SliceOfMiddle<T>(a: seq<T>, b: seq<T>, c: seq<T>, lo: nat, hi: nat)
    requires lo <= hi <= |b|
    ensures (a + b + c)[|a| + lo..|a| + hi] == b[lo..hi]
  {
  }
}
