/**
 * The list operations a database query performs on a table held as a sequence of
 * records: keeping the rows that satisfy a condition (filter), ordering by a field,
 * largest first (order_by('-field')), and taking the first n ([:n]).
 */
module Seqs {

  /** The elements of s that satisfy p, in their original order. */
  function Keep<T(==)>(s: seq<T>, p: T -> bool): (r: seq<T>)
    ensures |r| <= |s|
    ensures forall x | x in r :: x in s && p(x)
    ensures forall x | x in s && p(x) :: x in r
    ensures forall x | x in s :: multiset(r)[x] == if p(x) then multiset(s)[x] else 0
    ensures multiset(r) <= multiset(s)
    decreases |s|
  {
    if s == [] then []
    else
      assert s == [s[0]] + s[1..];
      (if p(s[0]) then [s[0]] else []) + Keep(s[1..], p)
  }

  /** Keeping every element changes nothing. */
  lemma {:induction false} KeepAll<T>(s: seq<T>, p: T -> bool)
    requires forall x | x in s :: p(x)
    ensures Keep(s, p) == s
    decreases |s|
  {
    if s != [] {
      assert s[0] in s;
      forall x | x in s[1..] ensures p(x) {
        assert x in s;
      }
      KeepAll(s[1..], p);
      assert Keep(s, p) == [s[0]] + Keep(s[1..], p);
      assert s == [s[0]] + s[1..];
    }
  }

  /** idx picks the elements of r out of s at strictly increasing positions. */
  ghost predicate EmbedsBy<T>(idx: seq<nat>, r: seq<T>, s: seq<T>) {
    && |idx| == |r|
    && (forall k | 0 <= k < |idx| :: idx[k] < |s| && r[k] == s[idx[k]])
    && (forall k, l | 0 <= k < l < |idx| :: idx[k] < idx[l])
  }

  /** r is s with some elements left out, the rest in their order in s. */
  ghost predicate IsSubsequence<T>(r: seq<T>, s: seq<T>) {
    exists idx: seq<nat> :: EmbedsBy(idx, r, s)
  }

  /** Every position of idx moved one further on. */
  function Shift(idx: seq<nat>): (r: seq<nat>)
    ensures |r| == |idx| && forall k | 0 <= k < |idx| :: r[k] == idx[k] + 1
  {
    seq(|idx|, k requires 0 <= k < |idx| => idx[k] + 1)
  }

  /** Positions in the tail of s are the next positions in s. */
  lemma ShiftEmbeds<T>(idx: seq<nat>, r: seq<T>, s: seq<T>)
    requires s != [] && EmbedsBy(idx, r, s[1..])
    ensures EmbedsBy(Shift(idx), r, s)
  {
  }

  /** The head of s followed by a subsequence of its tail is a subsequence of s. */
  lemma ConsEmbeds<T>(idx: seq<nat>, r: seq<T>, s: seq<T>)
    requires s != [] && EmbedsBy(idx, r, s[1..])
    ensures EmbedsBy([0] + Shift(idx), [s[0]] + r, s)
  {
    var j := [0] + Shift(idx);
    forall k | 0 <= k < |j| ensures j[k] < |s| && ([s[0]] + r)[k] == s[j[k]] {
      if k > 0 {
        assert j[k] == idx[k - 1] + 1 && ([s[0]] + r)[k] == r[k - 1];
      }
    }
  }

  /** An embedding is a witness of a subsequence. */
  lemma Embedded<T>(idx: seq<nat>, r: seq<T>, s: seq<T>)
    requires EmbedsBy(idx, r, s)
    ensures IsSubsequence(r, s)
  {
  }

  /** Keep on a non-empty sequence: the head when it is kept, then Keep of the tail. */
  lemma KeepCons<T>(s: seq<T>, p: T -> bool)
    requires s != []
    ensures Keep(s, p) == (if p(s[0]) then [s[0]] else []) + Keep(s[1..], p)
  {
  }

  /** A subsequence of the tail, with or without the head in front, is a subsequence of s. */
  lemma PrefixHeadInOrder<T>(s: seq<T>, keepHead: bool, rest: seq<T>)
    requires s != [] && IsSubsequence(rest, s[1..])
    ensures IsSubsequence((if keepHead then [s[0]] else []) + rest, s)
  {
    var idx :| EmbedsBy(idx, rest, s[1..]);
    if keepHead {
      ConsEmbeds(idx, rest, s);
      Embedded([0] + Shift(idx), [s[0]] + rest, s);
    } else {
      ShiftEmbeds(idx, rest, s);
      assert [] + rest == rest;
      Embedded(Shift(idx), rest, s);
    }
  }

  /** The kept elements keep their order: Keep gives a subsequence of its input. */
  lemma {:induction false} KeepInOrder<T>(s: seq<T>, p: T -> bool)
    ensures IsSubsequence(Keep(s, p), s)
    decreases |s|
  {
    if s == [] {
      Embedded([], Keep(s, p), s);
    } else {
      KeepInOrder(s[1..], p);
      KeepCons(s, p);
      PrefixHeadInOrder(s, p(s[0]), Keep(s[1..], p));
    }
  }

  /** A relation that holds between every earlier and later element still holds after a filter. */
  lemma {:induction false} KeepPairwise<T>(s: seq<T>, p: T -> bool, rel: (T, T) -> bool)
    requires forall i, j | 0 <= i < j < |s| :: rel(s[i], s[j])
    ensures forall i, j | 0 <= i < j < |Keep(s, p)| :: rel(Keep(s, p)[i], Keep(s, p)[j])
    decreases |s|
  {
    if s != [] {
      var tail := s[1..];
      KeepPairwiseTail(s, rel);
      KeepPairwise(tail, p, rel);
      var rt := Keep(tail, p);
      HeadRelatesToKept(s, p, rel);
      if p(s[0]) {
        ConsPairwise(s[0], rt, rel);
      }
    }
  }

  lemma KeepPairwiseTail<T>(s: seq<T>, rel: (T, T) -> bool)
    requires s != []
    requires forall i, j | 0 <= i < j < |s| :: rel(s[i], s[j])
    ensures forall i, j | 0 <= i < j < |s[1..]| :: rel(s[1..][i], s[1..][j])
  {
    forall i, j | 0 <= i < j < |s[1..]| ensures rel(s[1..][i], s[1..][j]) {
      assert s[1..][i] == s[i + 1] && s[1..][j] == s[j + 1];
    }
  }

  lemma HeadRelatesToKept<T>(s: seq<T>, p: T -> bool, rel: (T, T) -> bool)
    requires s != []
    requires forall i, j | 0 <= i < j < |s| :: rel(s[i], s[j])
    ensures forall y | y in Keep(s[1..], p) :: rel(s[0], y)
  {
    forall y | y in Keep(s[1..], p) ensures rel(s[0], y) {
      assert y in s[1..];
      var k :| 0 <= k < |s[1..]| && s[1..][k] == y;
      assert y == s[k + 1];
    }
  }

  lemma ConsPairwise<T>(h: T, rest: seq<T>, rel: (T, T) -> bool)
    requires forall i, j | 0 <= i < j < |rest| :: rel(rest[i], rest[j])
    requires forall y | y in rest :: rel(h, y)
    ensures forall i, j | 0 <= i < j < |[h] + rest| :: rel(([h] + rest)[i], ([h] + rest)[j])
  {
    var r := [h] + rest;
    forall i, j | 0 <= i < j < |r| ensures rel(r[i], r[j]) {
      assert r[j] == rest[j - 1];
      if i > 0 {
        assert r[i] == rest[i - 1];
      }
    }
  }

  ghost predicate SortedDesc<T>(s: seq<T>, key: T -> int) {
    forall i, j | 0 <= i < j < |s| :: key(s[i]) >= key(s[j])
  }

  lemma ConsSorted<T>(h: T, rest: seq<T>, key: T -> int)
    requires SortedDesc(rest, key)
    requires forall y | y in rest :: key(y) <= key(h)
    ensures SortedDesc([h] + rest, key)
  {
    var r := [h] + rest;
    forall i, j | 0 <= i < j < |r| ensures key(r[i]) >= key(r[j]) {
      assert r[j] == rest[j - 1];
      if i > 0 {
        assert r[i] == rest[i - 1];
      }
    }
  }

  /** Puts x into a list sorted largest first, ahead of the elements whose key it equals. */
  function InsertDesc<T(==)>(x: T, s: seq<T>, key: T -> int): (r: seq<T>)
    requires SortedDesc(s, key)
    ensures SortedDesc(r, key)
    ensures forall y | y in r :: y == x || y in s
    decreases |s|
  {
    if s == [] || key(x) >= key(s[0]) then [x] + s
    else
      SortedTail(s, key);
      var rest := InsertDesc(x, s[1..], key);
      ConsSorted(s[0], rest, key);
      [s[0]] + rest
  }

  /** Inserting adds x to the elements and changes nothing else. */
  lemma {:induction false} InsertDescPermutes<T>(x: T, s: seq<T>, key: T -> int)
    requires SortedDesc(s, key)
    ensures multiset(InsertDesc(x, s, key)) == multiset(s) + multiset{x}
    decreases |s|
  {
    if s != [] && key(x) < key(s[0]) {
      SortedTail(s, key);
      InsertDescPermutes(x, s[1..], key);
      ConsMultiset(s, InsertDesc(x, s[1..], key), x);
    }
  }

  /** Putting the head back before a tail that gained x gives s with x added. */
  lemma ConsMultiset<T>(s: seq<T>, rest: seq<T>, x: T)
    requires s != [] && multiset(rest) == multiset(s[1..]) + multiset{x}
    ensures multiset([s[0]] + rest) == multiset(s) + multiset{x}
  {
    assert s == [s[0]] + s[1..];
  }

  /** The tail of a list sorted largest first is sorted and has no key above the head's. */
  lemma SortedTail<T>(s: seq<T>, key: T -> int)
    requires s != [] && SortedDesc(s, key)
    ensures SortedDesc(s[1..], key)
    ensures forall y | y in s[1..] :: key(y) <= key(s[0])
  {
    SortedParts([s[0]], s[1..], key);
    assert [s[0]] + s[1..] == s;
    assert s[0] in [s[0]];
  }

  /** Orders s largest key first; elements with equal keys keep their relative order. */
  function SortDesc<T(==)>(s: seq<T>, key: T -> int): (r: seq<T>)
    ensures SortedDesc(r, key)
    ensures multiset(r) == multiset(s)
    decreases |s|
  {
    if s == [] then []
    else
      assert s == [s[0]] + s[1..];
      var sorted := SortDesc(s[1..], key);
      InsertDescPermutes(s[0], sorted, key);
      InsertDesc(s[0], sorted, key)
  }

  /** What a split of s leaves after its first part is in its second part. */
  lemma LeftOverInRest<T>(s: seq<T>, prefix: seq<T>, rest: seq<T>)
    requires multiset(s) == multiset(prefix + rest)
    ensures multiset(prefix) <= multiset(s)
    ensures forall x | x in multiset(s) - multiset(prefix) :: x in rest
  {
    assert multiset(prefix + rest) == multiset(prefix) + multiset(rest);
  }

  /** The first part of a list sorted largest first is sorted and dominates the second. */
  lemma SortedParts<T>(prefix: seq<T>, rest: seq<T>, key: T -> int)
    requires SortedDesc(prefix + rest, key)
    ensures SortedDesc(prefix, key)
    ensures forall x, y | x in rest && y in prefix :: key(x) <= key(y)
  {
    var r := prefix + rest;
    forall i, j | 0 <= i < j < |prefix| ensures key(prefix[i]) >= key(prefix[j]) {
      assert prefix[i] == r[i] && prefix[j] == r[j];
    }
    forall x, y | x in rest && y in prefix ensures key(x) <= key(y) {
      var i :| 0 <= i < |rest| && rest[i] == x;
      var j :| 0 <= j < |prefix| && prefix[j] == y;
      assert r[j] == y && r[|prefix| + i] == x;
    }
  }

  /**
   * In a list sorted largest first, a prefix is sorted and drawn from anything with the
   * list's elements, and holds no key smaller than one left behind.
   */
  lemma PrefixDominates<T>(s: seq<T>, sorted: seq<T>, k: nat, key: T -> int)
    requires SortedDesc(sorted, key) && multiset(sorted) == multiset(s) && k <= |sorted|
    ensures SortedDesc(sorted[..k], key)
    ensures multiset(sorted[..k]) <= multiset(s)
    ensures forall x, y | x in multiset(s) - multiset(sorted[..k]) && y in sorted[..k] :: key(x) <= key(y)
  {
    var prefix, rest := sorted[..k], sorted[k..];
    assert sorted == prefix + rest;
    LeftOverInRest(s, prefix, rest);
    SortedParts(prefix, rest, key);
  }

  /**
   * The first n elements of s ordered by key, largest first: at most n of them, sorted,
   * drawn from s, and no element left out has a larger key than one selected.
   */
  function TopN<T(==)>(s: seq<T>, key: T -> int, n: nat): (r: seq<T>)
    ensures |r| == if n < |s| then n else |s|
    ensures SortedDesc(r, key)
    ensures multiset(r) <= multiset(s)
    ensures forall x, y | x in multiset(s) - multiset(r) && y in r :: key(x) <= key(y)
  {
    var sorted := SortDesc(s, key);
    var k := if n < |s| then n else |s|;
    assert |sorted| == |s| by {
      assert |multiset(sorted)| == |multiset(s)|;
    }
    PrefixDominates(s, sorted, k, key);
    sorted[..k]
  }
}
