/** The sort in `main` (make_diploid.py:182): Python's stable `sorted` over
    the merged items, keyed by `(chrom, pos)` and compared with Python's `<`
    on that tuple, chromosome names compared as strings. */
module Ordering {
  import opened Vcf
  import Dicts

  /** Python's `<` on `str`: code point by code point, a proper prefix first. */
  predicate StrLess(a: string, b: string)
    decreases |a|
  {
    |b| > 0 && (|a| == 0 || a[0] < b[0] || (a[0] == b[0] && StrLess(a[1..], b[1..])))
  }

  lemma {:induction false} StrLessIrreflexive(a: string)
    ensures !StrLess(a, a)
    decreases |a|
  {
    if |a| > 0 {
      StrLessIrreflexive(a[1..]);
    }
  }

  lemma {:induction false} StrLessTransitive(a: string, b: string, c: string)
    requires StrLess(a, b) && StrLess(b, c)
    ensures StrLess(a, c)
    decreases |a|
  {
    if |a| > 0 && a[0] == b[0] && b[0] == c[0] {
      StrLessTransitive(a[1..], b[1..], c[1..]);
    }
  }

  lemma {:induction false} StrLessTrichotomy(a: string, b: string)
    ensures a == b || StrLess(a, b) || StrLess(b, a)
    decreases |a|
  {
    if |a| > 0 && |b| > 0 && a[0] == b[0] {
      StrLessTrichotomy(a[1..], b[1..]);
      if a[1..] == b[1..] {
        assert a == [a[0]] + a[1..] && b == [b[0]] + b[1..];
      }
    }
  }

  /** Python's `<` on the sort key `(chrom, pos)`. */
  predicate KeyLess(x: LocusKey, y: LocusKey) {
    StrLess(x.chrom, y.chrom) || (x.chrom == y.chrom && x.pos < y.pos)
  }

  /** The two keys tie under the sort key. */
  predicate SamePosition(x: LocusKey, y: LocusKey) {
    x.chrom == y.chrom && x.pos == y.pos
  }

  lemma KeyLessIrreflexive(x: LocusKey)
    ensures !KeyLess(x, x)
  {
    StrLessIrreflexive(x.chrom);
  }

  lemma KeyLessTransitive(x: LocusKey, y: LocusKey, z: LocusKey)
    requires KeyLess(x, y) && KeyLess(y, z)
    ensures KeyLess(x, z)
  {
    if StrLess(x.chrom, y.chrom) && StrLess(y.chrom, z.chrom) {
      StrLessTransitive(x.chrom, y.chrom, z.chrom);
    }
  }

  /** Any two keys either tie or are strictly ordered one way. */
  lemma KeyLessTotal(x: LocusKey, y: LocusKey)
    ensures SamePosition(x, y) || KeyLess(x, y) || KeyLess(y, x)
  {
    StrLessTrichotomy(x.chrom, y.chrom);
  }

  lemma KeyLessAsymmetric(x: LocusKey, y: LocusKey)
    requires KeyLess(x, y)
    ensures !KeyLess(y, x) && !SamePosition(x, y)
  {
    if KeyLess(y, x) {
      KeyLessTransitive(x, y, x);
      KeyLessIrreflexive(x);
    }
    if SamePosition(x, y) {
      StrLessIrreflexive(x.chrom);
    }
  }

  /** No item is followed by one that sorts strictly before it. */
  ghost predicate SortedByPosition<V>(s: seq<(LocusKey, V)>) {
    forall i, j :: 0 <= i < j < |s| ==> !KeyLess(s[j].0, s[i].0)
  }

  /** The items of `s` tied at position `(chrom, pos)`, in their order in `s`. */
  function TiedAt<V>(s: seq<(LocusKey, V)>, chrom: string, pos: int): (t: seq<(LocusKey, V)>)
    ensures |t| <= |s|
  {
    if s == [] then []
    else (if s[0].0.chrom == chrom && s[0].0.pos == pos then [s[0]] else []) + TiedAt(s[1..], chrom, pos)
  }

  /** Insert `x` after every item that sorts strictly before it and before
      every other item. */
  function Insert<V>(x: (LocusKey, V), s: seq<(LocusKey, V)>): (r: seq<(LocusKey, V)>)
    ensures |r| == |s| + 1
    decreases |s|
  {
    if s == [] then [x]
    else if KeyLess(s[0].0, x.0) then [s[0]] + Insert(x, s[1..])
    else [x] + s
  }

  /** `sorted(items, key=lambda item: (item[0][0], item[0][1]))`, as an
      insertion sort that puts each item before the later items it ties with. */
  function SortByPosition<V>(s: seq<(LocusKey, V)>): (r: seq<(LocusKey, V)>)
    ensures |r| == |s|
    decreases |s|
  {
    if s == [] then [] else Insert(s[0], SortByPosition(s[1..]))
  }

  lemma {:induction false} InsertPermutes<V>(x: (LocusKey, V), s: seq<(LocusKey, V)>)
    ensures multiset(Insert(x, s)) == multiset([x] + s)
    decreases |s|
  {
    if s != [] && KeyLess(s[0].0, x.0) {
      InsertPermutes(x, s[1..]);
      assert s == [s[0]] + s[1..];
    }
  }

  /** A sorted sequence's tail is sorted and sorts no earlier than its head. */
  lemma SortedTail<V>(s: seq<(LocusKey, V)>)
    requires s != [] && SortedByPosition(s)
    ensures SortedByPosition(s[1..])
    ensures forall y :: y in s[1..] ==> !KeyLess(y.0, s[0].0)
  {
    var t := s[1..];
    forall i, j | 0 <= i < j < |t| ensures !KeyLess(t[j].0, t[i].0) {
      assert t[i] == s[i + 1] && t[j] == s[j + 1];
    }
    forall y | y in t ensures !KeyLess(y.0, s[0].0) {
      var k :| 0 <= k < |t| && t[k] == y;
      assert s[k + 1] == y;
    }
  }

  /** A head that sorts no later than any item of a sorted tail extends it. */
  lemma SortedCons<V>(h: (LocusKey, V), t: seq<(LocusKey, V)>)
    requires SortedByPosition(t)
    requires forall y :: y in t ==> !KeyLess(y.0, h.0)
    ensures SortedByPosition([h] + t)
  {
    var r := [h] + t;
    forall i, j | 0 <= i < j < |r| ensures !KeyLess(r[j].0, r[i].0) {
      assert r[j] == t[j - 1];
      if i > 0 {
        assert r[i] == t[i - 1];
      } else {
        assert r[j] in t;
      }
    }
  }

  lemma {:induction false} InsertSorted<V>(x: (LocusKey, V), s: seq<(LocusKey, V)>)
    requires SortedByPosition(s)
    ensures SortedByPosition(Insert(x, s))
    decreases |s|
  {
    if s == [] {
    } else if KeyLess(s[0].0, x.0) {
      var t := s[1..];
      SortedTail(s);
      InsertSorted(x, t);
      InsertPermutes(x, t);
      var rest := Insert(x, t);
      forall y | y in rest ensures !KeyLess(y.0, s[0].0) {
        assert y in multiset([x] + t);
        if y == x {
          KeyLessAsymmetric(s[0].0, x.0);
        } else {
          assert y in t;
        }
      }
      SortedCons(s[0], rest);
    } else {
      forall y | y in s ensures !KeyLess(y.0, x.0) {
        if y != s[0] {
          SortedTail(s);
          assert y in s[1..];
          NotLessTransitive(x.0, s[0].0, y.0);
        }
      }
      SortedCons(x, s);
    }
  }

  /** Transitivity of "does not sort strictly before". */
  lemma NotLessTransitive(x: LocusKey, y: LocusKey, z: LocusKey)
    requires !KeyLess(y, x) && !KeyLess(z, y)
    ensures !KeyLess(z, x)
  {
    KeyLessTotal(x, y);
    if KeyLess(z, x) && KeyLess(x, y) {
      KeyLessTransitive(z, x, y);
    }
  }

  lemma {:induction false} TiedAtConcat<V>(s: seq<(LocusKey, V)>, t: seq<(LocusKey, V)>, chrom: string, pos: int)
    ensures TiedAt(s + t, chrom, pos) == TiedAt(s, chrom, pos) + TiedAt(t, chrom, pos)
    decreases |s|
  {
    if s != [] {
      TiedAtConcat(s[1..], t, chrom, pos);
      var u := s + t;
      assert u[0] == s[0];
      assert u[1..] == s[1..] + t;
      var h := if s[0].0.chrom == chrom && s[0].0.pos == pos then [s[0]] else [];
      var a, b := TiedAt(s[1..], chrom, pos), TiedAt(t, chrom, pos);
      assert TiedAt(u, chrom, pos) == h + TiedAt(u[1..], chrom, pos);
      assert TiedAt(s, chrom, pos) == h + a;
      assert TiedAt(u[1..], chrom, pos) == a + b;
      assert h + (a + b) == (h + a) + b;
    } else {
      assert s + t == t;
    }
  }

  /** Inserting `x` moves it only past items it does not tie with. */
  lemma {:induction false} InsertKeepsTies<V>(x: (LocusKey, V), s: seq<(LocusKey, V)>, chrom: string, pos: int)
    ensures TiedAt(Insert(x, s), chrom, pos) == TiedAt([x] + s, chrom, pos)
    decreases |s|
  {
    if s != [] && KeyLess(s[0].0, x.0) {
      InsertKeepsTies(x, s[1..], chrom, pos);
      KeyLessAsymmetric(s[0].0, x.0);
      TiedAtConcat([s[0]], Insert(x, s[1..]), chrom, pos);
      TiedAtConcat([x], s[1..], chrom, pos);
      TiedAtConcat([s[0]], [x] + s[1..], chrom, pos);
      TiedAtConcat([x], s, chrom, pos);
      TiedAtConcat([x], [s[0]] + s[1..], chrom, pos);
      assert s == [s[0]] + s[1..];
      TiedAtConcat([s[0]], s[1..], chrom, pos);
    }
  }

  /** The result is a permutation of the input. */
  lemma {:induction false} SortPermutes<V>(s: seq<(LocusKey, V)>)
    ensures multiset(SortByPosition(s)) == multiset(s)
    decreases |s|
  {
    if s != [] {
      SortPermutes(s[1..]);
      InsertPermutes(s[0], SortByPosition(s[1..]));
      assert s == [s[0]] + s[1..];
    }
  }

  /** The result is in non-decreasing `(chrom, pos)` order. */
  lemma {:induction false} SortSorts<V>(s: seq<(LocusKey, V)>)
    ensures SortedByPosition(SortByPosition(s))
    decreases |s|
  {
    if s != [] {
      SortSorts(s[1..]);
      InsertSorted(s[0], SortByPosition(s[1..]));
    }
  }

  /** The sort is stable: the items tied at any position keep their relative order. */
  lemma {:induction false} SortIsStable<V>(s: seq<(LocusKey, V)>, chrom: string, pos: int)
    ensures TiedAt(SortByPosition(s), chrom, pos) == TiedAt(s, chrom, pos)
    decreases |s|
  {
    if s != [] {
      SortIsStable(s[1..], chrom, pos);
      InsertKeepsTies(s[0], SortByPosition(s[1..]), chrom, pos);
      TiedAtConcat([s[0]], SortByPosition(s[1..]), chrom, pos);
      TiedAtConcat([s[0]], s[1..], chrom, pos);
      assert s == [s[0]] + s[1..];
    }
  }

  /** An item whose key the others lack can go in front of them. */
  lemma DistinctCons<V>(h: (LocusKey, V), t: seq<(LocusKey, V)>)
    requires Dicts.Distinct(Dicts.Firsts(t))
    requires forall y :: y in t ==> y.0 != h.0
    ensures Dicts.Distinct(Dicts.Firsts([h] + t))
  {
    var r := [h] + t;
    var fr, ft := Dicts.Firsts(r), Dicts.Firsts(t);
    forall i, j | 0 <= i < j < |fr| ensures fr[i] != fr[j] {
      assert r[j] == t[j - 1] && fr[j] == ft[j - 1];
      if i > 0 {
        assert r[i] == t[i - 1] && fr[i] == ft[i - 1];
      } else {
        assert r[j] in t;
      }
    }
  }

  lemma {:induction false} InsertKeepsDistinct<V>(x: (LocusKey, V), s: seq<(LocusKey, V)>)
    requires Dicts.Distinct(Dicts.Firsts(s))
    requires forall y :: y in s ==> y.0 != x.0
    ensures Dicts.Distinct(Dicts.Firsts(Insert(x, s)))
    decreases |s|
  {
    if s == [] {
    } else if KeyLess(s[0].0, x.0) {
      var t := s[1..];
      Dicts.FirstsTail(s);
      assert forall y :: y in t ==> y in s;
      InsertKeepsDistinct(x, t);
      InsertPermutes(x, t);
      var rest := Insert(x, t);
      forall y | y in rest ensures y.0 != s[0].0 {
        assert y in multiset([x] + t);
        if y != x {
          assert y in t;
        }
      }
      DistinctCons(s[0], rest);
    } else {
      DistinctCons(x, s);
    }
  }

  /** Sorting the items of a dict keeps their keys distinct. */
  lemma {:induction false} SortKeepsDistinct<V>(s: seq<(LocusKey, V)>)
    requires Dicts.Distinct(Dicts.Firsts(s))
    ensures Dicts.Distinct(Dicts.Firsts(SortByPosition(s)))
    decreases |s|
  {
    if s != [] {
      Dicts.FirstsTail(s);
      SortKeepsDistinct(s[1..]);
      SortPermutes(s[1..]);
      forall y | y in SortByPosition(s[1..]) ensures y.0 != s[0].0 {
        assert y in multiset(s[1..]);
      }
      InsertKeepsDistinct(s[0], SortByPosition(s[1..]));
    }
  }
}
