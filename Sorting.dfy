/**
 * `[...xs].sort(compare)` for a consistent comparator. ECMAScript requires the
 * sort to be stable, so the result is the stable sorted permutation; the model
 * computes it by insertion, each element going in front of the first element
 * it may precede.
 */
module Sorting {
  import Seqs

  /** `le(a, b)` holds when `a` may be placed before `b`: the comparator's result is not positive. */
  ghost predicate TotalPreorder<T(!new)>(le: (T, T) -> bool) {
    && (forall a, b :: le(a, b) || le(b, a))
    && (forall a, b, c :: le(a, b) && le(b, c) ==> le(a, c))
  }

  predicate SortedBy<T>(s: seq<T>, le: (T, T) -> bool) {
    forall i, j :: 0 <= i < j < |s| ==> le(s[i], s[j])
  }

  /** Inserts `x` in front of the first element it may precede. */
  function Insert<T(!new)>(x: T, s: seq<T>, le: (T, T) -> bool): (r: seq<T>)
    requires TotalPreorder(le) && SortedBy(s, le)
    ensures multiset(r) == multiset(s) + multiset{x}
    ensures SortedBy(r, le)
  {
    if |s| == 0 then [x]
    else if le(x, s[0]) then
      PrecedesHeadPrecedesAll(x, s, le);
      PrependKeepsSorted(x, s, le);
      [x] + s
    else
      var rest := Insert(x, s[1..], le);
      assert s == [s[0]] + s[1..];
      HeadPrecedesInsertion(x, s, rest, le);
      PrependKeepsSorted(s[0], rest, le);
      [s[0]] + rest
  }

  lemma PrependKeepsSorted<T>(h: T, s: seq<T>, le: (T, T) -> bool)
    requires SortedBy(s, le)
    requires forall k :: 0 <= k < |s| ==> le(h, s[k])
    ensures SortedBy([h] + s, le)
  {
    var r := [h] + s;
    forall i, j | 0 <= i < j < |r| ensures le(r[i], r[j]) {
      if i > 0 {
        assert r[i] == s[i - 1] && r[j] == s[j - 1];
      }
    }
  }

  /**
   * When `x` goes after the head of `s`, the head may precede everything the
   * insertion into the tail produced.
   */
  lemma HeadPrecedesInsertion<T(!new)>(x: T, s: seq<T>, rest: seq<T>, le: (T, T) -> bool)
    requires TotalPreorder(le) && SortedBy(s, le)
    requires |s| > 0 && !le(x, s[0])
    requires multiset(rest) == multiset(s[1..]) + multiset{x}
    ensures forall k :: 0 <= k < |rest| ==> le(s[0], rest[k])
  {
    forall k | 0 <= k < |rest| ensures le(s[0], rest[k]) {
      assert rest[k] in multiset(rest);
      if rest[k] != x {
        assert rest[k] in multiset(s[1..]);
        var j :| 0 <= j < |s[1..]| && s[1..][j] == rest[k];
        assert s[j + 1] == rest[k];
      }
    }
  }

  /** With a preorder, an element that may precede the head of a sorted sequence may precede all of it. */
  lemma PrecedesHeadPrecedesAll<T(!new)>(x: T, s: seq<T>, le: (T, T) -> bool)
    requires TotalPreorder(le) && SortedBy(s, le) && |s| > 0 && le(x, s[0])
    ensures forall k :: 0 <= k < |s| ==> le(x, s[k])
  {
  }

  function InsertionSort<T(!new)>(s: seq<T>, le: (T, T) -> bool): (r: seq<T>)
    requires TotalPreorder(le)
    ensures multiset(r) == multiset(s)
    ensures SortedBy(r, le)
  {
    if |s| == 0 then []
    else
      assert s == [s[0]] + s[1..];
      Insert(s[0], InsertionSort(s[1..], le), le)
  }

  /** `x` ties with `y`: the comparator returns 0 both ways. */
  function TiedWith<T>(le: (T, T) -> bool, y: T): T -> bool {
    (x: T) => le(x, y) && le(y, x)
  }

  lemma ConcatStep<T(!new)>(a: seq<T>, b: seq<T>, p: T -> bool)
    requires |a| > 0
    ensures Seqs.Filter(a + b, p) == (if p(a[0]) then [a[0]] else []) + Seqs.Filter(a[1..] + b, p)
  {
    assert (a + b)[0] == a[0] && (a + b)[1..] == a[1..] + b;
  }

  /** Filtering distributes over concatenation. */
  lemma {:induction false} FilterConcat<T(!new)>(a: seq<T>, b: seq<T>, p: T -> bool)
    ensures Seqs.Filter(a + b, p) == Seqs.Filter(a, p) + Seqs.Filter(b, p)
  {
    if |a| > 0 {
      ConcatStep(a, b, p);
      FilterConcat(a[1..], b, p);
      var head := if p(a[0]) then [a[0]] else [];
      assert Seqs.Filter(a, p) == head + Seqs.Filter(a[1..], p);
      assert head + (Seqs.Filter(a[1..], p) + Seqs.Filter(b, p))
          == (head + Seqs.Filter(a[1..], p)) + Seqs.Filter(b, p);
    } else {
      assert a + b == b;
    }
  }

  lemma FilterSingleton<T(!new)>(x: T, p: T -> bool)
    ensures Seqs.Filter([x], p) == if p(x) then [x] else []
  {
    assert [x][1..] == [];
  }

  /** Two elements that both tie with `y` may precede each other. */
  lemma TiedWithSameIsTied<T(!new)>(le: (T, T) -> bool, y: T, x: T, z: T)
    requires TotalPreorder(le) && TiedWith(le, y)(x) && TiedWith(le, y)(z)
    ensures le(x, z)
  {
  }

  /**
   * When `x` goes after the head `h`, the two do not both tie with `y`, so
   * the order in which they reach the filtered run does not matter.
   */
  lemma SwapUntied<T(!new)>(le: (T, T) -> bool, y: T, x: T, h: T, tail: seq<T>)
    requires TotalPreorder(le) && !le(x, h)
    ensures Seqs.Filter([h], TiedWith(le, y)) + (Seqs.Filter([x], TiedWith(le, y)) + tail)
            == Seqs.Filter([x], TiedWith(le, y)) + (Seqs.Filter([h], TiedWith(le, y)) + tail)
  {
    var p := TiedWith(le, y);
    FilterSingleton(x, p);
    FilterSingleton(h, p);
    if p(x) && p(h) {
      TiedWithSameIsTied(le, y, x, h);
    }
  }

  /** Inserting `x` adds it to the run of elements tied with `y` exactly when it ties with `y`, and in front. */
  lemma {:induction false} InsertIsStable<T(!new)>(x: T, s: seq<T>, le: (T, T) -> bool, y: T)
    requires TotalPreorder(le) && SortedBy(s, le)
    ensures Seqs.Filter(Insert(x, s, le), TiedWith(le, y))
            == Seqs.Filter([x], TiedWith(le, y)) + Seqs.Filter(s, TiedWith(le, y))
  {
    if |s| == 0 || le(x, s[0]) {
      InsertInFront(x, s, le);
      FilterConcat([x], s, TiedWith(le, y));
    } else {
      InsertIsStable(x, s[1..], le, y);
      InsertAfterHead(x, s, le);
      assert s == [s[0]] + s[1..];
      PassHead(le, y, x, s[0], s[1..], Insert(x, s[1..], le));
    }
  }

  lemma InsertInFront<T(!new)>(x: T, s: seq<T>, le: (T, T) -> bool)
    requires TotalPreorder(le) && SortedBy(s, le) && (|s| == 0 || le(x, s[0]))
    ensures Insert(x, s, le) == [x] + s
  {
  }

  lemma InsertAfterHead<T(!new)>(x: T, s: seq<T>, le: (T, T) -> bool)
    requires TotalPreorder(le) && SortedBy(s, le) && |s| > 0 && !le(x, s[0])
    ensures Insert(x, s, le) == [s[0]] + Insert(x, s[1..], le)
  {
  }

  /** If `rest` is `tail` with `x` put first among the ties with `y`, so is `[h] + rest` for `[h] + tail`, given `x` goes after `h`. */
  lemma PassHead<T(!new)>(le: (T, T) -> bool, y: T, x: T, h: T, tail: seq<T>, rest: seq<T>)
    requires TotalPreorder(le) && !le(x, h)
    requires Seqs.Filter(rest, TiedWith(le, y)) == Seqs.Filter([x], TiedWith(le, y)) + Seqs.Filter(tail, TiedWith(le, y))
    ensures Seqs.Filter([h] + rest, TiedWith(le, y))
            == Seqs.Filter([x], TiedWith(le, y)) + Seqs.Filter([h] + tail, TiedWith(le, y))
  {
    var p := TiedWith(le, y);
    FilterConcat([h], rest, p);
    FilterConcat([h], tail, p);
    SwapUntied(le, y, x, h, Seqs.Filter(tail, p));
  }

  /**
   * The sort is stable: for every `y`, the elements tied with `y` come out in
   * the order they went in.
   */
  lemma {:induction false} InsertionSortIsStable<T(!new)>(s: seq<T>, le: (T, T) -> bool, y: T)
    requires TotalPreorder(le)
    ensures Seqs.Filter(InsertionSort(s, le), TiedWith(le, y)) == Seqs.Filter(s, TiedWith(le, y))
  {
    if |s| > 0 {
      InsertionSortIsStable(s[1..], le, y);
      InsertIsStable(s[0], InsertionSort(s[1..], le), le, y);
      assert s == [s[0]] + s[1..];
      FilterConcat([s[0]], s[1..], TiedWith(le, y));
    }
  }
}
