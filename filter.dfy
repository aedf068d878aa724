/**
 * The near-duplicate filter. Alerts are sorted by decreasing length of a
 * chosen text field (a stable sort, so equally long alerts keep their input
 * order); the sorted list is then walked once, and an alert is kept only
 * when its field text occurs in the field text of no alert kept before it.
 */
module Filter {
  import opened Strings
  import opened AlertModel

  /** The sort key: the length of the chosen field's text. */
  function Len(a: Alert, f: Field): nat
  {
    |FieldOf(a, f)|
  }

  /** Field lengths never increase along `s`. */
  predicate Descending(s: seq<Alert>, f: Field)
  {
    forall i, j :: 0 <= i < j < |s| ==> Len(s[i], f) >= Len(s[j], f)
  }

  // ---------------------------------------------------------------------
  // The stable sort by decreasing field length
  // ---------------------------------------------------------------------

  /** Puts `x` in front of the first item of `s` whose field is no longer than its own. */
  function InsertDesc(x: Alert, s: seq<Alert>, f: Field): seq<Alert>
    decreases |s|
  {
    if s == [] then [x]
    else if Len(s[0], f) <= Len(x, f) then [x] + s
    else [s[0]] + InsertDesc(x, s[1..], f)
  }

  /** Inserting adds exactly the one item. */
  lemma {:induction false} InsertDescMultiset(x: Alert, s: seq<Alert>, f: Field)
    ensures multiset(InsertDesc(x, s, f)) == multiset(s) + multiset{x}
    decreases |s|
  {
    if s != [] && Len(s[0], f) > Len(x, f) {
      assert s == [s[0]] + s[1..];
      InsertDescMultiset(x, s[1..], f);
    }
  }

  /** `Len` is at most `m` on every item of `s`. */
  predicate AllAtMost(s: seq<Alert>, f: Field, m: nat)
  {
    forall i :: 0 <= i < |s| ==> Len(s[i], f) <= m
  }

  /** Inserting an item no longer than `m` into items no longer than `m` keeps that bound. */
  lemma {:induction false} InsertDescBounded(x: Alert, s: seq<Alert>, f: Field, m: nat)
    requires Len(x, f) <= m && AllAtMost(s, f, m)
    ensures AllAtMost(InsertDesc(x, s, f), f, m)
    decreases |s|
  {
    var r := InsertDesc(x, s, f);
    if s == [] {
    } else if Len(s[0], f) <= Len(x, f) {
      forall i | 0 <= i < |r| ensures Len(r[i], f) <= m {
        if i > 0 { assert r[i] == s[i - 1]; }
      }
    } else {
      var t := InsertDesc(x, s[1..], f);
      assert AllAtMost(s[1..], f, m) by {
        forall i | 0 <= i < |s[1..]| ensures Len(s[1..][i], f) <= m {
          assert s[1..][i] == s[i + 1];
        }
      }
      InsertDescBounded(x, s[1..], f, m);
      forall i | 0 <= i < |r| ensures Len(r[i], f) <= m {
        if i > 0 { assert r[i] == t[i - 1]; }
      }
    }
  }

  /** Inserting into a list in order gives a list in order. */
  lemma {:induction false} InsertDescSorted(x: Alert, s: seq<Alert>, f: Field)
    requires Descending(s, f)
    ensures Descending(InsertDesc(x, s, f), f)
    decreases |s|
  {
    if s == [] {
      assert InsertDesc(x, s, f) == [x];
    } else if Len(s[0], f) <= Len(x, f) {
      DescendingHead(s, f);
      assert AllAtMost(s, f, Len(x, f));
      DescendingCons(x, s, f);
    } else {
      var t := InsertDesc(x, s[1..], f);
      DescendingHead(s, f);
      InsertDescSorted(x, s[1..], f);
      InsertDescBounded(x, s[1..], f, Len(s[0], f));
      DescendingCons(s[0], t, f);
    }
  }

  /** In a list in order, the first item is the longest, and the rest is still in order. */
  lemma DescendingHead(s: seq<Alert>, f: Field)
    requires s != [] && Descending(s, f)
    ensures AllAtMost(s, f, Len(s[0], f)) && AllAtMost(s[1..], f, Len(s[0], f))
    ensures Descending(s[1..], f)
  {
    DescendingTail(s, f);
    forall i | 0 <= i < |s[1..]| ensures Len(s[1..][i], f) <= Len(s[0], f) {
      assert s[1..][i] == s[i + 1];
    }
  }

  /** An item at least as long as every item of a list in order can go in front of it. */
  lemma DescendingCons(y: Alert, t: seq<Alert>, f: Field)
    requires Descending(t, f) && AllAtMost(t, f, Len(y, f))
    ensures Descending([y] + t, f)
  {
    var r := [y] + t;
    forall i, j | 0 <= i < j < |r| ensures Len(r[i], f) >= Len(r[j], f) {
      assert r[j] == t[j - 1];
      if i > 0 {
        assert r[i] == t[i - 1];
      }
    }
  }

  /**
   * The sort `sorted(items, key=len(field), reverse=True)`: a permutation of
   * the input with non-increasing field lengths.
   */
  function SortByLenDesc(s: seq<Alert>, f: Field): (r: seq<Alert>)
    ensures multiset(r) == multiset(s)
    ensures Descending(r, f)
    decreases |s|
  {
    if s == [] then [] else
      assert s == [s[0]] + s[1..];
      InsertDescSorted(s[0], SortByLenDesc(s[1..], f), f);
      InsertDescMultiset(s[0], SortByLenDesc(s[1..], f), f);
      InsertDesc(s[0], SortByLenDesc(s[1..], f), f)
  }

  /** The items of `s` whose field has length `n`, in their order in `s`. */
  function WithLen(s: seq<Alert>, f: Field, n: nat): seq<Alert>
    decreases |s|
  {
    if s == [] then []
    else if Len(s[0], f) == n then [s[0]] + WithLen(s[1..], f, n)
    else WithLen(s[1..], f, n)
  }

  /** Adding an item at the end adds it to the items of its length, and to no others. */
  lemma {:induction false} WithLenSnoc(s: seq<Alert>, y: Alert, f: Field, n: nat)
    ensures WithLen(s + [y], f, n) == if Len(y, f) == n then WithLen(s, f, n) + [y] else WithLen(s, f, n)
    decreases |s|
  {
    var t := s + [y];
    if s == [] {
      assert t == [y] && t[1..] == [];
      assert [y] + [] == [y] && [] + [y] == [y];
    } else {
      assert t[0] == s[0] && t[1..] == s[1..] + [y];
      WithLenSnoc(s[1..], y, f, n);
      var w := WithLen(s[1..], f, n);
      if Len(s[0], f) == n && Len(y, f) == n {
        assert [s[0]] + (w + [y]) == ([s[0]] + w) + [y];
      }
    }
  }

  /** Inserting `x` adds it in front of the items of its length, and changes no other length's items. */
  lemma {:induction false} InsertDescWithLen(x: Alert, s: seq<Alert>, f: Field, n: nat)
    ensures WithLen(InsertDesc(x, s, f), f, n) == if Len(x, f) == n then [x] + WithLen(s, f, n) else WithLen(s, f, n)
    decreases |s|
  {
    if s == [] {
      assert [x][1..] == [];
      assert [x] + [] == [x];
    } else if Len(s[0], f) > Len(x, f) {
      var r, t := InsertDesc(x, s, f), InsertDesc(x, s[1..], f);
      assert r == [s[0]] + t;
      assert r[0] == s[0] && r[1..] == t;
      InsertDescWithLen(x, s[1..], f, n);
    } else {
      var r := [x] + s;
      assert r[0] == x && r[1..] == s;
    }
  }

  /**
   * The sort is stable: for every length, the items of that length appear
   * in the sorted list in exactly their input order.
   */
  lemma {:induction false} SortIsStable(s: seq<Alert>, f: Field, n: nat)
    ensures WithLen(SortByLenDesc(s, f), f, n) == WithLen(s, f, n)
    decreases |s|
  {
    if s != [] {
      SortIsStable(s[1..], f, n);
      InsertDescWithLen(s[0], SortByLenDesc(s[1..], f), f, n);
    }
  }

  /** Sorting a list that is already in order changes nothing. */
  lemma {:induction false} SortOfDescending(s: seq<Alert>, f: Field)
    requires Descending(s, f)
    ensures SortByLenDesc(s, f) == s
    decreases |s|
  {
    if s != [] {
      var x, rest := s[0], s[1..];
      DescendingTail(s, f);
      SortOfDescending(rest, f);
      assert rest != [] ==> Len(rest[0], f) <= Len(x, f);
      InsertDescFront(x, rest, f);
      assert [x] + rest == s;
    }
  }

  /** An item no shorter than the first one goes in front. */
  lemma InsertDescFront(x: Alert, t: seq<Alert>, f: Field)
    requires t == [] || Len(t[0], f) <= Len(x, f)
    ensures InsertDesc(x, t, f) == [x] + t
  {
    if t == [] {
      assert [x] + t == [x];
    }
  }

  /** Dropping the first item keeps the order. */
  lemma DescendingTail(s: seq<Alert>, f: Field)
    requires s != [] && Descending(s, f)
    ensures Descending(s[1..], f)
  {
    var rest := s[1..];
    forall i, j | 0 <= i < j < |rest| ensures Len(rest[i], f) >= Len(rest[j], f) {
      assert rest[i] == s[i + 1] && rest[j] == s[j + 1];
    }
  }

  // ---------------------------------------------------------------------
  // Subsequences
  // ---------------------------------------------------------------------

  /** `a` is `b` with some items left out (order kept). */
  predicate Subseq<T(==)>(a: seq<T>, b: seq<T>)
    decreases |b|
  {
    if a == [] then true
    else if b == [] then false
    else (a[|a| - 1] == b[|b| - 1] && Subseq(a[..|a| - 1], b[..|b| - 1])) || Subseq(a, b[..|b| - 1])
  }

  lemma {:induction false} SubseqMultiset<T>(a: seq<T>, b: seq<T>)
    requires Subseq(a, b)
    ensures multiset(a) <= multiset(b)
    decreases |b|
  {
    if a != [] {
      assert b == b[..|b| - 1] + [b[|b| - 1]];
      if a[|a| - 1] == b[|b| - 1] && Subseq(a[..|a| - 1], b[..|b| - 1]) {
        SubseqMultiset(a[..|a| - 1], b[..|b| - 1]);
        assert a == a[..|a| - 1] + [a[|a| - 1]];
      } else {
        SubseqMultiset(a, b[..|b| - 1]);
      }
    }
  }

  lemma SubseqElements<T>(a: seq<T>, b: seq<T>)
    requires Subseq(a, b)
    ensures |a| <= |b|
    ensures forall i :: 0 <= i < |a| ==> a[i] in b
  {
    SubseqMultiset(a, b);
    assert forall i :: 0 <= i < |a| ==> a[i] in multiset(a);
  }

  lemma SubseqAppend<T>(a: seq<T>, b: seq<T>, x: T)
    requires Subseq(a, b)
    ensures Subseq(a + [x], b + [x])
    ensures Subseq(a, b + [x])
  {
    assert (a + [x])[..|a|] == a;
    assert (b + [x])[..|b|] == b;
  }

  /** Leaving items out keeps a list in order. */
  lemma {:induction false} SubseqDescending(a: seq<Alert>, b: seq<Alert>, f: Field)
    requires Subseq(a, b) && Descending(b, f)
    ensures Descending(a, f)
    decreases |b|
  {
    if a != [] {
      var b' := b[..|b| - 1];
      assert Descending(b', f);
      if a[|a| - 1] == b[|b| - 1] && Subseq(a[..|a| - 1], b') {
        var a' := a[..|a| - 1];
        SubseqDescending(a', b', f);
        SubseqElements(a', b');
        forall i, j | 0 <= i < j < |a| ensures Len(a[i], f) >= Len(a[j], f) {
          if j == |a| - 1 {
            assert a[i] == a'[i] && a'[i] in b';
            var p :| 0 <= p < |b'| && b'[p] == a'[i];
            assert b[p] == a[i];
          } else {
            assert a[i] == a'[i] && a[j] == a'[j];
          }
        }
      } else {
        SubseqDescending(a, b', f);
      }
    }
  }

  /** Leaving items out leaves the items of each length in their relative order. */
  lemma {:induction false} SubseqWithLen(a: seq<Alert>, b: seq<Alert>, f: Field, n: nat)
    requires Subseq(a, b)
    ensures Subseq(WithLen(a, f, n), WithLen(b, f, n))
    decreases |b|
  {
    if a != [] {
      var b', y := b[..|b| - 1], b[|b| - 1];
      assert b == b' + [y];
      WithLenSnoc(b', y, f, n);
      if a[|a| - 1] == y && Subseq(a[..|a| - 1], b') {
        var a' := a[..|a| - 1];
        assert a == a' + [y];
        WithLenSnoc(a', y, f, n);
        SubseqWithLen(a', b', f, n);
        SubseqAppend(WithLen(a', f, n), WithLen(b', f, n), y);
      } else {
        SubseqWithLen(a, b', f, n);
        SubseqAppend(WithLen(a, f, n), WithLen(b', f, n), y);
      }
    }
  }

  // ---------------------------------------------------------------------
  // The containment walk
  // ---------------------------------------------------------------------

  /** The field text of `x` occurs in the field text of some item of `r`. */
  predicate Covered(x: Alert, r: seq<Alert>, f: Field)
  {
    exists k :: 0 <= k < |r| && Contains(FieldOf(r[k], f), FieldOf(x, f))
  }

  /** No item's field text occurs in the field text of another item (at another position). */
  predicate NoContainment(r: seq<Alert>, f: Field)
  {
    forall i, j :: 0 <= i < |r| && 0 <= j < |r| && i != j ==> !Contains(FieldOf(r[j], f), FieldOf(r[i], f))
  }

  /** What the walk over `s` has kept once it has seen all of `s`. */
  function Kept(s: seq<Alert>, f: Field): seq<Alert>
    decreases |s|
  {
    if s == [] then []
    else
      var r := Kept(s[..|s| - 1], f);
      if Covered(s[|s| - 1], r, f) then r else r + [s[|s| - 1]]
  }

  /** The whole filter as a function: the walk over the sorted list. */
  function Filtered(items: seq<Alert>, f: Field): seq<Alert>
  {
    Kept(SortByLenDesc(items, f), f)
  }

  predicate IsPrefix<T(==)>(p: seq<T>, q: seq<T>)
  {
    |p| <= |q| && q[..|p|] == p
  }

  /** The walk only ever appends: what it kept after a prefix stays at the front of the result. */
  lemma {:induction false} KeptGrows(s: seq<Alert>, m: nat, f: Field)
    requires m <= |s|
    ensures IsPrefix(Kept(s[..m], f), Kept(s, f))
    decreases |s|
  {
    if m == |s| {
      assert s[..m] == s;
    } else {
      var s' := s[..|s| - 1];
      assert s'[..m] == s[..m];
      KeptGrows(s', m, f);
    }
  }

  /** The walk keeps items of its input, in their order. */
  lemma {:induction false} KeptIsSubseq(s: seq<Alert>, f: Field)
    ensures Subseq(Kept(s, f), s)
    decreases |s|
  {
    if s != [] {
      var s' := s[..|s| - 1];
      KeptIsSubseq(s', f);
      SubseqAppend(Kept(s', f), s', s[|s| - 1]);
      assert s' + [s[|s| - 1]] == s;
    }
  }

  /** The first item is always kept, and stays first. */
  lemma {:induction false} KeptFirst(s: seq<Alert>, f: Field)
    requires s != []
    ensures Kept(s, f) != [] && Kept(s, f)[0] == s[0]
    decreases |s|
  {
    if |s| == 1 {
      assert s[..0] == [];
    } else {
      var s' := s[..|s| - 1];
      KeptFirst(s', f);
    }
  }

  /** Every item of the input is covered by a kept item: it was kept itself or found inside one. */
  lemma {:induction false} KeptCovers(s: seq<Alert>, f: Field)
    ensures forall i :: 0 <= i < |s| ==> Covered(s[i], Kept(s, f), f)
    decreases |s|
  {
    if s != [] {
      var s', x := s[..|s| - 1], s[|s| - 1];
      var r', r := Kept(s', f), Kept(s, f);
      KeptCovers(s', f);
      KeptGrows(s, |s| - 1, f);
      if !Covered(x, r', f) {
        ContainsSelf(FieldOf(x, f));
        assert r[|r'|] == x;
      }
      assert Covered(x, r, f) by {
        if Covered(x, r', f) { CoveredGrows(x, r', r, f); }
      }
      forall i | 0 <= i < |s| ensures Covered(s[i], r, f) {
        if i < |s| - 1 {
          assert s[i] == s'[i];
          CoveredGrows(s[i], r', r, f);
        }
      }
    }
  }

  /** An item covered by a prefix of a list is covered by the list. */
  lemma CoveredGrows(x: Alert, p: seq<Alert>, q: seq<Alert>, f: Field)
    requires IsPrefix(p, q) && Covered(x, p, f)
    ensures Covered(x, q, f)
  {
    var k :| 0 <= k < |p| && Contains(FieldOf(p[k], f), FieldOf(x, f));
    assert q[k] == p[k];
  }

  /**
   * Walking a list sorted by decreasing length keeps a containment-free
   * list: an item is checked against every item kept before it, and an
   * earlier, no shorter item can only lie inside it by being equal to it.
   */
  lemma {:induction false} KeptNoContainment(s: seq<Alert>, f: Field)
    requires Descending(s, f)
    ensures NoContainment(Kept(s, f), f)
    decreases |s|
  {
    if s != [] {
      var s', x := s[..|s| - 1], s[|s| - 1];
      var r' := Kept(s', f);
      assert Descending(s', f);
      KeptNoContainment(s', f);
      if !Covered(x, r', f) {
        var r := r' + [x];
        KeptIsSubseq(s, f);
        SubseqDescending(r, s, f);
        forall i, j | 0 <= i < |r| && 0 <= j < |r| && i != j
          ensures !Contains(FieldOf(r[j], f), FieldOf(r[i], f))
        {
          if j == |r'| {
            assert r[i] == r'[i];
            assert Len(r[i], f) >= Len(r[j], f);
            InsideNoShorter(FieldOf(x, f), FieldOf(r'[i], f));
            ContainsSelf(FieldOf(r'[i], f));
          } else if i == |r'| {
            assert r[j] == r'[j];
          } else {
            assert r[i] == r'[i] && r[j] == r'[j];
          }
        }
      }
    }
  }

  /** A text inside another that is no shorter than it is that text. */
  lemma InsideNoShorter(hay: string, needle: string)
    ensures Contains(hay, needle) && |needle| >= |hay| ==> needle == hay
  {
    if Contains(hay, needle) {
      ContainsLength(hay, needle);
    }
  }

  /** A list that is already containment-free passes the walk unchanged. */
  lemma {:induction false} KeptOfNoContainment(r: seq<Alert>, f: Field)
    requires NoContainment(r, f)
    ensures Kept(r, f) == r
    decreases |r|
  {
    if r != [] {
      var r', x := r[..|r| - 1], r[|r| - 1];
      NoContainmentInit(r, f);
      KeptOfNoContainment(r', f);
      assert Kept(r, f) == r' + [x];
      assert r' + [x] == r;
    }
  }

  /**
   * Without its last item a containment-free list stays containment-free,
   * and no item of what is left covers the last one.
   */
  lemma NoContainmentInit(r: seq<Alert>, f: Field)
    requires r != [] && NoContainment(r, f)
    ensures NoContainment(r[..|r| - 1], f)
    ensures !Covered(r[|r| - 1], r[..|r| - 1], f)
  {
    var r' := r[..|r| - 1];
    forall i, j | 0 <= i < |r'| && 0 <= j < |r'| && i != j
      ensures !Contains(FieldOf(r'[j], f), FieldOf(r'[i], f))
    {
      assert r'[i] == r[i] && r'[j] == r[j];
    }
    forall k | 0 <= k < |r'| ensures !Contains(FieldOf(r'[k], f), FieldOf(r[|r| - 1], f)) {
      assert r'[k] == r[k];
    }
  }

  /**
   * Of two items with the same field text, the one later in the walk is
   * dropped when the walk reaches it (a string contains itself).
   */
  lemma SameTextLaterDropped(s: seq<Alert>, i: nat, y: Alert, f: Field)
    requires i < |s| && FieldOf(s[i], f) == FieldOf(y, f)
    ensures Kept(s + [y], f) == Kept(s, f)
  {
    var p := s[..i + 1];
    var r, q := Kept(p, f), Kept(s, f);
    KeptCovers(p, f);
    assert p[i] == s[i];
    assert Covered(s[i], r, f);
    var k :| 0 <= k < |r| && Contains(FieldOf(r[k], f), FieldOf(s[i], f));
    KeptGrows(s, i + 1, f);
    assert q[k] == r[k];
    var h, t := FieldOf(r[k], f), FieldOf(y, f);
    assert Contains(h, t);
    assert 0 <= k < |q| && Contains(FieldOf(q[k], f), t);
    assert Covered(y, q, f);
    KeptSnoc(s, y, f);
  }

  /** One step of the walk: the next item is appended unless a kept item covers it. */
  lemma KeptSnoc(s: seq<Alert>, x: Alert, f: Field)
    ensures Kept(s + [x], f) == if Covered(x, Kept(s, f), f) then Kept(s, f) else Kept(s, f) + [x]
  {
    var t := s + [x];
    assert t[..|t| - 1] == s && t[|t| - 1] == x;
  }

  // ---------------------------------------------------------------------
  // Properties of the whole filter
  // ---------------------------------------------------------------------

  /**
   * What the filter returns: input items only and no more of them than
   * came in, non-empty for non-empty input with the longest (first sorted)
   * item in front, in non-increasing length order, containment-free, and
   * covering every input item.
   */
  lemma FilteredProperties(items: seq<Alert>, f: Field)
    ensures multiset(Filtered(items, f)) <= multiset(items)
    ensures |Filtered(items, f)| <= |items|
    ensures items != [] ==> Filtered(items, f) != [] && Filtered(items, f)[0] == SortByLenDesc(items, f)[0]
    ensures items == [] ==> Filtered(items, f) == []
    ensures Descending(Filtered(items, f), f)
    ensures NoContainment(Filtered(items, f), f)
    ensures forall i :: 0 <= i < |items| ==> Covered(items[i], Filtered(items, f), f)
  {
    var sorted := SortByLenDesc(items, f);
    var r := Filtered(items, f);
    KeptIsSubseq(sorted, f);
    SubseqMultiset(r, sorted);
    SubseqElements(r, sorted);
    assert |sorted| == |multiset(sorted)| == |multiset(items)| == |items|;
    if items != [] {
      KeptFirst(sorted, f);
    }
    SubseqDescending(r, sorted, f);
    KeptNoContainment(sorted, f);
    KeptCovers(sorted, f);
    forall i | 0 <= i < |items| ensures Covered(items[i], r, f) {
      assert items[i] in multiset(sorted);
      CoveredMember(items[i], sorted, r, f);
    }
  }

  /** An item of a list all of whose items `r` covers is itself covered by `r`. */
  lemma CoveredMember(x: Alert, s: seq<Alert>, r: seq<Alert>, f: Field)
    requires x in s && forall i :: 0 <= i < |s| ==> Covered(s[i], r, f)
    ensures Covered(x, r, f)
  {
    var p :| 0 <= p < |s| && s[p] == x;
  }

  /**
   * Ties keep their input order: for every length, the surviving items of
   * that length are a subsequence of the input's items of that length.
   */
  lemma FilteredKeepsTieOrder(items: seq<Alert>, f: Field, n: nat)
    ensures Subseq(WithLen(Filtered(items, f), f, n), WithLen(items, f, n))
  {
    var sorted := SortByLenDesc(items, f);
    KeptIsSubseq(sorted, f);
    SubseqWithLen(Kept(sorted, f), sorted, f, n);
    SortIsStable(items, f, n);
  }

  /** Filtering what the filter returned changes nothing. */
  lemma FilteredIdempotent(items: seq<Alert>, f: Field)
    ensures Filtered(Filtered(items, f), f) == Filtered(items, f)
  {
    var r := Filtered(items, f);
    FilteredProperties(items, f);
    SortOfDescending(r, f);
    KeptOfNoContainment(r, f);
  }

  /** The empty string lies in every string, so a containment-free list holding it holds nothing else. */
  lemma OneSurvivorWithEmptyText(r: seq<Alert>, f: Field, k: nat)
    requires NoContainment(r, f) && k < |r| && FieldOf(r[k], f) == ""
    ensures |r| == 1
  {
    if |r| != 1 {
      var j := if k == 0 then 1 else 0;
      ContainsEmpty(FieldOf(r[j], f));
      assert false;
    }
  }

  /**
   * An item with empty field text survives only when every input item's
   * field is empty, and then it is the only survivor.
   */
  lemma FilteredEmptyText(items: seq<Alert>, f: Field, k: nat)
    requires k < |Filtered(items, f)| && FieldOf(Filtered(items, f)[k], f) == ""
    ensures |Filtered(items, f)| == 1
    ensures forall i :: 0 <= i < |items| ==> FieldOf(items[i], f) == ""
  {
    var r := Filtered(items, f);
    FilteredProperties(items, f);
    OneSurvivorWithEmptyText(r, f, k);
    forall i | 0 <= i < |items| ensures FieldOf(items[i], f) == "" {
      var q :| 0 <= q < |r| && Contains(FieldOf(r[q], f), FieldOf(items[i], f));
      ContainsLength(FieldOf(r[q], f), FieldOf(items[i], f));
    }
  }

  lemma {:induction false} WithLenOfUniform(s: seq<Alert>, f: Field, n: nat)
    requires forall i :: 0 <= i < |s| ==> Len(s[i], f) == n
    ensures WithLen(s, f, n) == s
    decreases |s|
  {
    if s != [] {
      WithLenOfUniform(s[1..], f, n);
      assert [s[0]] + s[1..] == s;
    }
  }

  /** Items of one length pass the sort in their input order. */
  lemma SortOfUniform(s: seq<Alert>, f: Field, n: nat)
    requires forall i :: 0 <= i < |s| ==> Len(s[i], f) == n
    ensures SortByLenDesc(s, f) == s
  {
    var sorted := SortByLenDesc(s, f);
    SortIsStable(s, f, n);
    WithLenOfUniform(s, f, n);
    forall i | 0 <= i < |sorted| ensures Len(sorted[i], f) == n {
      assert sorted[i] in multiset(s);
    }
    WithLenOfUniform(sorted, f, n);
  }

  /** When every field is empty, exactly the first input item survives. */
  lemma FilteredAllEmpty(items: seq<Alert>, f: Field)
    requires items != []
    requires forall i :: 0 <= i < |items| ==> FieldOf(items[i], f) == ""
    ensures Filtered(items, f) == [items[0]]
  {
    var r := Filtered(items, f);
    UniformFirstSurvives(items, f);
    FilteredEmptyText(items, f, 0);
    assert r == [r[0]];
  }

  /** When every field is empty, the sort changes nothing, so the first input item survives first. */
  lemma UniformFirstSurvives(items: seq<Alert>, f: Field)
    requires items != []
    requires forall i :: 0 <= i < |items| ==> FieldOf(items[i], f) == ""
    ensures Filtered(items, f) != [] && Filtered(items, f)[0] == items[0]
    ensures FieldOf(Filtered(items, f)[0], f) == ""
  {
    SortOfUniform(items, f, 0);
    KeptFirst(items, f);
  }

  // ---------------------------------------------------------------------
  // The filter as the program runs it
  // ---------------------------------------------------------------------

  /** The `any(...)` scan: does the item's field text occur in that of an item already kept? */
  method IsDuplicate(item: Alert, result: seq<Alert>, field: Field) returns (dup: bool)
    ensures dup <==> Covered(item, result, field)
  {
    for k := 0 to |result|
      invariant forall j :: 0 <= j < k ==> !Contains(FieldOf(result[j], field), FieldOf(item, field))
    {
      if Contains(FieldOf(result[k], field), FieldOf(item, field)) {
        return true;
      }
    }
    return false;
  }

  /**
   * `filter_duplicates(items, field)`: sort by decreasing field length, then
   * keep each item whose field text is not inside that of an item already kept.
   */
  method FilterDuplicates(items: seq<Alert>, field: Field) returns (result: seq<Alert>)
    ensures result == Filtered(items, field)
    ensures multiset(result) <= multiset(items)
    ensures items == [] <==> result == []
    ensures Descending(result, field)
    ensures NoContainment(result, field)
    ensures forall i :: 0 <= i < |items| ==> Covered(items[i], result, field)
  {
    var sorted := SortByLenDesc(items, field);
    result := Walk(sorted, field);
    FilteredProperties(items, field);
  }

  /** The loop of the filter: walk the sorted list, appending each item no kept item covers. */
  method Walk(sorted: seq<Alert>, field: Field) returns (result: seq<Alert>)
    ensures result == Kept(sorted, field)
  {
    result := [];
    for i := 0 to |sorted|
      invariant result == Kept(sorted[..i], field)
    {
      assert sorted[..i + 1][..i] == sorted[..i];
      var dup := IsDuplicate(sorted[i], result, field);
      if !dup {
        result := result + [sorted[i]];
      }
    }
    assert sorted[..|sorted|] == sorted;
  }
}
