/** The operators the warp, block and look-back engines combine by (src/patos/cuda/primitives/monoid.py), the
    laws a scan and a reduction ask of them, and the ordered fold that says what the engines compute: a
    concatenation folds to its parts' folds, a commuting operator folds a sequence and its reversal
    alike, and may combine two halves element by element before it folds them. */
module Monoids {

  /** Operands of `combine` come in lane order, the lower lane's first. */
  datatype Monoid<!T> = Monoid(combine: (T, T) -> T, identity: T)

  ghost predicate Associates<T>(m: Monoid<T>, a: T, b: T, c: T) {
    m.combine(m.combine(a, b), c) == m.combine(a, m.combine(b, c))
  }

  ghost predicate Commutes<T>(m: Monoid<T>, a: T, b: T) {
    m.combine(a, b) == m.combine(b, a)
  }

  /** What a scan asks of its operator. */
  ghost predicate Lawful<T(!new)>(m: Monoid<T>) {
    && (forall a, b, c :: Associates(m, a, b, c))
    && (forall a :: m.combine(m.identity, a) == a && m.combine(a, m.identity) == a)
  }

  /** What a reduction asks besides. */
  ghost predicate Commutative<T(!new)>(m: Monoid<T>) {
    forall a, b :: Commutes(m, a, b)
  }

  /** The combination of `s` in order, the independent reference for every engine. */
  function Fold<T>(m: Monoid<T>, s: seq<T>): T {
    if |s| == 0 then m.identity else m.combine(Fold(m, s[..|s| - 1]), s[|s| - 1])
  }

  lemma FoldSnoc<T>(m: Monoid<T>, s: seq<T>, x: T)
    ensures Fold(m, s + [x]) == m.combine(Fold(m, s), x)
  {
    assert (s + [x])[..|s|] == s;
  }

  lemma FoldOne<T(!new)>(m: Monoid<T>, x: T)
    requires Lawful(m)
    ensures Fold(m, [x]) == x
  {
    FoldSnoc(m, [], x);
    assert [] + [x] == [x];
  }

  /** Folding a concatenation combines the two folds: where the tower's splits come from. */
  lemma {:induction false} FoldConcat<T(!new)>(m: Monoid<T>, a: seq<T>, b: seq<T>)
    requires Lawful(m)
    ensures Fold(m, a + b) == m.combine(Fold(m, a), Fold(m, b))
    decreases |b|
  {
    if |b| == 0 {
      assert a + b == a;
    } else {
      var front, x := b[..|b| - 1], b[|b| - 1];
      FoldConcat(m, a, front);
      FoldSnoc(m, a + front, x);
      assert a + b == a + front + [x];
      assert Associates(m, Fold(m, a), Fold(m, front), x);
    }
  }

  lemma FoldSplit<T(!new)>(m: Monoid<T>, s: seq<T>, i: nat, j: nat, k: nat)
    requires Lawful(m) && i <= j <= k <= |s|
    ensures Fold(m, s[i..k]) == m.combine(Fold(m, s[i..j]), Fold(m, s[j..k]))
  {
    assert s[i..k] == s[i..j] + s[j..k];
    FoldConcat(m, s[i..j], s[j..k]);
  }

  /** `s` nearest-last: the order in which a look-back window's lanes hold their tiles. */
  function Reversed<T>(s: seq<T>): (r: seq<T>)
    ensures |r| == |s|
    ensures forall i :: 0 <= i < |s| ==> r[i] == s[|s| - 1 - i]
  {
    seq(|s|, i requires 0 <= i < |s| => s[|s| - 1 - i])
  }

  /** A commuting operator folds a sequence and its reversal alike. */
  lemma {:induction false} FoldReversed<T(!new)>(m: Monoid<T>, s: seq<T>)
    requires Lawful(m) && Commutative(m)
    ensures Fold(m, Reversed(s)) == Fold(m, s)
  {
    if |s| == 0 {
      assert Reversed(s) == s;
    } else {
      var front, x := s[..|s| - 1], s[|s| - 1];
      FoldReversed(m, front);
      assert Reversed(s) == [x] + Reversed(front);
      FoldConcat(m, [x], Reversed(front));
      FoldOne(m, x);
      assert Commutes(m, x, Fold(m, front));
    }
  }

  function Zipped<T>(m: Monoid<T>, a: seq<T>, b: seq<T>): (r: seq<T>)
    requires |a| == |b|
    ensures |r| == |a| && forall i :: 0 <= i < |a| ==> r[i] == m.combine(a[i], b[i])
  {
    seq(|a|, i requires 0 <= i < |a| => m.combine(a[i], b[i]))
  }

  /** A commuting operator may combine two halves element by element before it folds them: what
      one butterfly step relies on. */
  lemma {:induction false} FoldZipped<T(!new)>(m: Monoid<T>, a: seq<T>, b: seq<T>)
    requires Lawful(m) && Commutative(m) && |a| == |b|
    ensures Fold(m, Zipped(m, a, b)) == m.combine(Fold(m, a), Fold(m, b))
  {
    if |a| > 0 {
      var n := |a| - 1;
      FoldZipped(m, a[..n], b[..n]);
      assert Zipped(m, a, b)[..n] == Zipped(m, a[..n], b[..n]);
      var x, y := Fold(m, a[..n]), Fold(m, b[..n]);
      Exchange(m, x, a[n], y, b[n]);
      assert Associates(m, m.combine(x, y), a[n], b[n]);
    }
  }

  lemma Exchange<T(!new)>(m: Monoid<T>, w: T, x: T, y: T, z: T)
    requires Lawful(m) && Commutative(m)
    ensures m.combine(m.combine(w, x), m.combine(y, z)) == m.combine(m.combine(w, y), m.combine(x, z))
  {
    var yz, xz := m.combine(y, z), m.combine(x, z);
    assert Associates(m, w, x, yz) && Associates(m, w, y, xz);
    assert Associates(m, x, y, z) && Associates(m, y, x, z) && Commutes(m, x, y);
  }

  /** Sequences end to end: the threads of a block, warp by warp. */
  function Concat<T>(rows: seq<seq<T>>): seq<T> {
    if |rows| == 0 then [] else Concat(rows[..|rows| - 1]) + rows[|rows| - 1]
  }

  function Folds<T>(m: Monoid<T>, rows: seq<seq<T>>): (r: seq<T>)
    ensures |r| == |rows| && forall w :: 0 <= w < |rows| ==> r[w] == Fold(m, rows[w])
  {
    seq(|rows|, w requires 0 <= w < |rows| => Fold(m, rows[w]))
  }

  /** Folding what the rows fold to folds the whole: how a block combines its warps. */
  lemma {:induction false} FoldRows<T(!new)>(m: Monoid<T>, rows: seq<seq<T>>)
    requires Lawful(m)
    ensures Fold(m, Concat(rows)) == Fold(m, Folds(m, rows))
  {
    if |rows| > 0 {
      var front, last := rows[..|rows| - 1], rows[|rows| - 1];
      FoldRows(m, front);
      FoldConcat(m, Concat(front), last);
      assert Folds(m, rows) == Folds(m, front) + [Fold(m, last)];
      FoldSnoc(m, Folds(m, front), Fold(m, last));
    }
  }
}
