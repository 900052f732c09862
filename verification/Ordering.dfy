/** Total orders, the lexicographic order of sequences, and sorting. */
module Ordering {
  ghost predicate TotalOrder<T(!new)>(leq: (T, T) -> bool) {
    && (forall x, y :: leq(x, y) || leq(y, x))
    && (forall x, y :: leq(x, y) && leq(y, x) ==> x == y)
    && (forall x, y, z :: leq(x, y) && leq(y, z) ==> leq(x, z))
  }

  /** The lexicographic order: the first difference decides, and a prefix comes first. */
  predicate SeqLeq<T(==)>(leq: (T, T) -> bool, a: seq<T>, b: seq<T>) {
    if a == [] then true
    else if b == [] then false
    else if a[0] == b[0] then SeqLeq(leq, a[1..], b[1..])
    else leq(a[0], b[0])
  }

  lemma {:induction false} SeqLeqTotal<T(!new)>(leq: (T, T) -> bool, a: seq<T>, b: seq<T>)
    requires TotalOrder(leq)
    ensures SeqLeq(leq, a, b) || SeqLeq(leq, b, a)
    ensures SeqLeq(leq, a, b) && SeqLeq(leq, b, a) ==> a == b
  {
    if a != [] && b != [] {
      SeqLeqTotal(leq, a[1..], b[1..]);
      assert a == [a[0]] + a[1..] && b == [b[0]] + b[1..];
    }
  }

  lemma {:induction false} SeqLeqTransitive<T(!new)>(leq: (T, T) -> bool, a: seq<T>, b: seq<T>, c: seq<T>)
    requires TotalOrder(leq) && SeqLeq(leq, a, b) && SeqLeq(leq, b, c)
    ensures SeqLeq(leq, a, c)
  {
    if a != [] && a[0] == b[0] == c[0] { SeqLeqTransitive(leq, a[1..], b[1..], c[1..]); }
  }

  /** Sequences of totally ordered elements are totally ordered. */
  lemma SeqOrder<T(!new)>(leq: (T, T) -> bool)
    requires TotalOrder(leq)
    ensures TotalOrder((a: seq<T>, b: seq<T>) => SeqLeq(leq, a, b))
  {
    forall a: seq<T>, b: seq<T>
      ensures SeqLeq(leq, a, b) || SeqLeq(leq, b, a)
      ensures SeqLeq(leq, a, b) && SeqLeq(leq, b, a) ==> a == b
    {
      SeqLeqTotal(leq, a, b);
    }
    forall a: seq<T>, b: seq<T>, c: seq<T> | SeqLeq(leq, a, b) && SeqLeq(leq, b, c)
      ensures SeqLeq(leq, a, c)
    {
      SeqLeqTransitive(leq, a, b, c);
    }
  }

  predicate CharLeq(a: char, b: char) {
    a <= b
  }

  predicate StringLeq(a: string, b: string) {
    SeqLeq(CharLeq, a, b)
  }

  lemma StringOrder()
    ensures TotalOrder(StringLeq)
  {
    assert TotalOrder(CharLeq);
    SeqOrder(CharLeq);
    var lex := (a: string, b: string) => SeqLeq(CharLeq, a, b);
    assert TotalOrder(lex);
    assert forall a, b :: StringLeq(a, b) == lex(a, b);
  }

  predicate IntLeq(a: int, b: int) {
    a <= b
  }

  /** Pairs by their first part, then by their second. */
  predicate PairLeq<A(==), B>(leqA: (A, A) -> bool, leqB: (B, B) -> bool, x: (A, B), y: (A, B)) {
    if x.0 == y.0 then leqB(x.1, y.1) else leqA(x.0, y.0)
  }

  lemma PairOrder<A(!new), B(!new)>(leqA: (A, A) -> bool, leqB: (B, B) -> bool)
    requires TotalOrder(leqA) && TotalOrder(leqB)
    ensures TotalOrder((x: (A, B), y: (A, B)) => PairLeq(leqA, leqB, x, y))
  {
    forall x: (A, B), y: (A, B), z: (A, B) | PairLeq(leqA, leqB, x, y) && PairLeq(leqA, leqB, y, z)
      ensures PairLeq(leqA, leqB, x, z)
    {
      assert leqA(x.0, y.0) && leqA(y.0, z.0);
    }
  }

  /** An order of keys orders whatever has distinct keys. */
  lemma KeyOrder<T(!new), K(!new)>(leq: (K, K) -> bool, key: T -> K)
    requires TotalOrder(leq) && forall x, y :: key(x) == key(y) ==> x == y
    ensures TotalOrder((x: T, y: T) => leq(key(x), key(y)))
  {
  }

  // ---------------------------------------------------------------- sorting

  ghost predicate Sorted<T>(leq: (T, T) -> bool, xs: seq<T>) {
    forall i, j | 0 <= i < j < |xs| :: leq(xs[i], xs[j])
  }

  function InsertSorted<T>(leq: (T, T) -> bool, x: T, xs: seq<T>): seq<T> {
    if xs == [] || leq(x, xs[0]) then [x] + xs
    else [xs[0]] + InsertSorted(leq, x, xs[1..])
  }

  function Sort<T>(leq: (T, T) -> bool, xs: seq<T>): seq<T> {
    if xs == [] then [] else InsertSorted(leq, xs[0], Sort(leq, xs[1..]))
  }

  lemma {:induction false} InsertSortedSorts<T(!new)>(leq: (T, T) -> bool, x: T, xs: seq<T>)
    requires TotalOrder(leq) && Sorted(leq, xs)
    ensures Sorted(leq, InsertSorted(leq, x, xs))
    ensures multiset(InsertSorted(leq, x, xs)) == multiset(xs) + multiset{x}
  {
    if xs == [] {
    } else if leq(x, xs[0]) {
      assert forall i | 0 <= i < |xs| :: leq(x, xs[i]);
    } else {
      var head, tail := xs[0], xs[1..];
      assert xs == [head] + tail;
      InsertSortedSorts(leq, x, tail);
      var rest := InsertSorted(leq, x, tail);
      forall i | 0 <= i < |rest| ensures leq(head, rest[i]) {
        assert rest[i] in multiset(tail) + multiset{x};
      }
    }
  }

  lemma {:induction false} SortSorts<T(!new)>(leq: (T, T) -> bool, xs: seq<T>)
    requires TotalOrder(leq)
    ensures Sorted(leq, Sort(leq, xs))
    ensures multiset(Sort(leq, xs)) == multiset(xs)
  {
    if xs != [] {
      SortSorts(leq, xs[1..]);
      InsertSortedSorts(leq, xs[0], Sort(leq, xs[1..]));
      assert xs == [xs[0]] + xs[1..];
    }
  }

  lemma BagTail<T>(xs: seq<T>)
    requires xs != []
    ensures multiset(xs[1..]) == multiset(xs) - multiset{xs[0]}
  {
    assert xs == [xs[0]] + xs[1..];
  }

  /** A sorted sequence is fixed by its elements. */
  lemma {:induction false} SortedUnique<T(!new)>(leq: (T, T) -> bool, xs: seq<T>, ys: seq<T>)
    requires TotalOrder(leq) && Sorted(leq, xs) && Sorted(leq, ys)
    requires multiset(xs) == multiset(ys)
    ensures xs == ys
  {
    if xs == [] {
      assert |multiset(ys)| == 0;
    } else {
      assert |xs| == |multiset(xs)| == |multiset(ys)| == |ys|;
      assert xs[0] in multiset(ys) && ys[0] in multiset(xs);
      assert xs[0] == ys[0];
      BagTail(xs);
      BagTail(ys);
      assert xs == [xs[0]] + xs[1..] && ys == [ys[0]] + ys[1..];
      SortedUnique(leq, xs[1..], ys[1..]);
    }
  }

  /** Sorting forgets the order its input came in. */
  lemma SortForgetsOrder<T(!new)>(leq: (T, T) -> bool, xs: seq<T>, ys: seq<T>)
    requires TotalOrder(leq) && multiset(xs) == multiset(ys)
    ensures Sort(leq, xs) == Sort(leq, ys)
  {
    SortSorts(leq, xs);
    SortSorts(leq, ys);
    SortedUnique(leq, Sort(leq, xs), Sort(leq, ys));
  }

  ghost predicate IsGreatest<T(!new)>(leq: (T, T) -> bool, xs: set<T>, top: T) {
    top in xs && forall y | y in xs :: leq(y, top)
  }

  /** A nonempty finite set has a greatest element. */
  lemma {:induction false} Greatest<T(!new)>(leq: (T, T) -> bool, xs: set<T>) returns (top: T)
    requires TotalOrder(leq) && xs != {}
    ensures IsGreatest(leq, xs, top)
    decreases |xs|
  {
    var x :| x in xs;
    if xs == {x} {
      return x;
    }
    var rest := xs - {x};
    var best := Greatest(leq, rest);
    top := if leq(x, best) then best else x;
    forall y | y in xs ensures leq(y, top) {
      if y != x {
        assert y in rest;
        assert leq(y, best);
      }
    }
  }

  lemma StringAntisymmetric()
    ensures forall a, b :: StringLeq(a, b) && StringLeq(b, a) ==> a == b
  {
    forall a, b | StringLeq(a, b) && StringLeq(b, a) ensures a == b {
      SeqLeqTotal(CharLeq, a, b);
    }
  }

  lemma LastStringExists(names: set<string>)
    requires names != {}
    ensures exists top :: top in names && forall y | y in names :: StringLeq(y, top)
  {
    StringOrder();
    var top := Greatest(StringLeq, names);
    assert top in names && forall y | y in names :: StringLeq(y, top);
  }

  /** The last of some strings in their order. */
  function LastString(names: set<string>): (r: string)
    requires names != {}
    ensures r in names && forall y | y in names :: StringLeq(y, r)
  {
    LastStringExists(names);
    StringAntisymmetric();
    var top :| top in names && forall y | y in names :: StringLeq(y, top);
    top
  }

  // ---------------------------------------------------------------- sums over a sequence

  /** Everything that `f` gives for the elements of a sequence, with how often. */
  ghost function BagOf<T, U>(f: T -> multiset<U>, xs: seq<T>): multiset<U> {
    if xs == [] then multiset{} else f(xs[0]) + BagOf(f, xs[1..])
  }

  lemma {:induction false} BagOfConcat<T, U>(f: T -> multiset<U>, a: seq<T>, b: seq<T>)
    ensures BagOf(f, a + b) == BagOf(f, a) + BagOf(f, b)
    decreases |a|
  {
    if a == [] {
      assert a + b == b;
    } else {
      assert (a + b)[1..] == a[1..] + b;
      BagOfConcat(f, a[1..], b);
    }
  }

  lemma BagOfPush<T, U>(f: T -> multiset<U>, xs: seq<T>, x: T)
    ensures BagOf(f, xs + [x]) == BagOf(f, xs) + f(x)
  {
    BagOfConcat(f, xs, [x]);
    assert [x][1..] == [];
    assert BagOf(f, [x]) == f(x) + BagOf(f, []);
  }

  lemma DropOne<T>(ys: seq<T>, j: nat)
    requires j < |ys|
    ensures multiset(ys[..j] + ys[j + 1..]) == multiset(ys) - multiset{ys[j]}
  {
    assert ys == ys[..j] + [ys[j]] + ys[j + 1..];
  }

  lemma BagOfDropOne<T, U>(f: T -> multiset<U>, ys: seq<T>, j: nat)
    requires j < |ys|
    ensures BagOf(f, ys) == f(ys[j]) + BagOf(f, ys[..j] + ys[j + 1..])
  {
    var a, b := ys[..j], ys[j + 1..];
    assert ys == a + ([ys[j]] + b);
    BagOfConcat(f, a, [ys[j]] + b);
    BagOfConcat(f, a, b);
    assert ([ys[j]] + b)[1..] == b;
  }

  /** The sum does not depend on the order. */
  lemma {:induction false} BagOfForgetsOrder<T, U>(f: T -> multiset<U>, xs: seq<T>, ys: seq<T>)
    requires multiset(xs) == multiset(ys)
    ensures BagOf(f, xs) == BagOf(f, ys)
    decreases |xs|
  {
    if xs == [] {
      assert |multiset(ys)| == 0;
    } else {
      assert xs[0] in multiset(ys);
      var j :| 0 <= j < |ys| && ys[j] == xs[0];
      DropOne(xs, 0);
      DropOne(ys, j);
      assert xs[..0] + xs[1..] == xs[1..];
      BagOfForgetsOrder(f, xs[1..], ys[..j] + ys[j + 1..]);
      BagOfDropOne(f, ys, j);
    }
  }
}
