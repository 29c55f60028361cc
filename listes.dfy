/**
 * The java.util.List operations the planning relies on, stated on sequences.
 * Elements are compared by identity, as objects without an `equals` override are.
 */
module Listes {

  /** A non-empty set has an element (the one a `HashSet` iteration would meet first). */
  lemma UnElement(s: set<int>) returns (x: int)
    requires s != {}
    ensures x in s
  {
    if forall y :: y !in s {
      assert false;
    }
    x :| x in s;
  }

  /** `List.indexOf`: the position of the first occurrence of `x`, or -1. */
  function IndexOf<T(==)>(l: seq<T>, x: T): (r: int)
    ensures -1 <= r < |l|
    ensures r == -1 <==> x !in l
    ensures 0 <= r ==> l[r] == x && x !in l[..r]
  {
    IndexDepuis(l, x, 0)
  }

  /** The position of the first occurrence of `x` at `i` or after it, or -1. */
  function IndexDepuis<T(==)>(l: seq<T>, x: T, i: nat): (r: int)
    requires i <= |l|
    ensures r == -1 || i <= r < |l|
    ensures r == -1 <==> x !in l[i..]
    ensures 0 <= r ==> l[r] == x && x !in l[i..r]
    decreases |l| - i
  {
    if i == |l| then -1 else if l[i] == x then i else IndexDepuis(l, x, i + 1)
  }

  /**
   * `List.remove(Object)`: drops the first occurrence of `x`, if any; the
   * elements after it move one place down (see `RetirerDecale`).
   */
  function Retirer<T(==)>(l: seq<T>, x: T): (r: seq<T>)
    ensures x !in l ==> r == l
    ensures x in l ==> |r| == |l| - 1
  {
    var i := IndexOf(l, x);
    if i == -1 then l else seq(|l| - 1, k requires 0 <= k < |l| - 1 => if k < i then l[k] else l[k + 1])
  }

  /** The elements before the first occurrence of `x` stay in place; the ones after it move one place down. */
  lemma RetirerDecale<T>(l: seq<T>, x: T)
    requires x in l
    ensures |Retirer(l, x)| == |l| - 1
    ensures forall k :: 0 <= k < IndexOf(l, x) ==> Retirer(l, x)[k] == l[k]
    ensures forall k :: IndexOf(l, x) <= k < |l| - 1 ==> Retirer(l, x)[k] == l[k + 1]
  {
  }

  /** `List.add(int, E)`: inserts `x` so that it ends at position `i`. */
  function Inserer<T>(l: seq<T>, i: nat, x: T): (r: seq<T>)
    requires i <= |l|
    ensures |r| == |l| + 1 && r[i] == x
    ensures forall k :: 0 <= k < i ==> r[k] == l[k]
    ensures forall k :: i < k <= |l| ==> r[k] == l[k - 1]
  {
    seq(|l| + 1, k requires 0 <= k <= |l| => if k < i then l[k] else if k == i then x else l[k - 1])
  }

  /** Removing an element keeps only elements of the list. */
  lemma RetirerInclus<T>(l: seq<T>, x: T)
    ensures forall y :: y in Retirer(l, x) ==> y in l
  {
    if x in l {
      RetirerDecale(l, x);
      var r := Retirer(l, x);
      forall y | y in r ensures y in l {
        var k :| 0 <= k < |r| && r[k] == y;
        if k < IndexOf(l, x) { assert l[k] == y; } else { assert l[k + 1] == y; }
      }
    }
  }

  /** Inserting adds only the inserted element. */
  lemma InsererInclus<T>(l: seq<T>, i: nat, x: T)
    requires i <= |l|
    ensures forall y :: y in Inserer(l, i, x) ==> y in l || y == x
  {
    var r := Inserer(l, i, x);
    forall y | y in r ensures y in l || y == x {
      var k :| 0 <= k < |r| && r[k] == y;
      if k < i { assert l[k] == y; } else if k > i { assert l[k - 1] == y; }
    }
  }

  /** The first occurrence is the only position holding `x` with no `x` before it. */
  lemma IndexOfEn<T>(l: seq<T>, x: T, k: nat)
    requires k < |l| && l[k] == x && x !in l[..k]
    ensures IndexOf(l, x) == k
  {
  }

  /** Removing `x` whose first occurrence is at `k` closes the gap at `k`. */
  lemma RetirerEn<T>(l: seq<T>, x: T, k: nat)
    requires k < |l| && l[k] == x && x !in l[..k]
    ensures |Retirer(l, x)| == |l| - 1
    ensures forall i :: 0 <= i < k ==> Retirer(l, x)[i] == l[i]
    ensures forall i :: k <= i < |l| - 1 ==> Retirer(l, x)[i] == l[i + 1]
  {
    IndexOfEn(l, x, k);
  }

  /** Removing an element that was just appended, and was not there before, restores the list. */
  lemma RetirerApresAjout<T>(l: seq<T>, x: T)
    requires x !in l
    ensures Retirer(l + [x], x) == l
  {
    var m := l + [x];
    RetirerEn(m, x, |l|);
  }

  /** Removing two distinct elements just appended, in order, restores the list. */
  lemma RetirerDeuxApresAjout<T>(l: seq<T>, x: T, y: T)
    requires x !in l && y !in l && x != y
    ensures Retirer(Retirer(l + [x] + [y], x), y) == l
  {
    var m := l + [x] + [y];
    RetirerEn(m, x, |l|);
    assert Retirer(m, x) == l + [y];
    RetirerApresAjout(l, y);
  }

  /** Inserting `x` at `i` and then `y` at `j` fills the two gaps left in `n`. */
  lemma ReinsererDeux<T>(l: seq<T>, n: seq<T>, i: nat, j: nat, x: T, y: T)
    requires i < j < |l| && |n| == |l| - 2 && l[i] == x && l[j] == y
    requires forall k :: 0 <= k < i ==> n[k] == l[k]
    requires forall k :: i <= k < j - 1 ==> n[k] == l[k + 1]
    requires forall k :: j - 1 <= k < |n| ==> n[k] == l[k + 2]
    ensures Inserer(Inserer(n, i, x), j, y) == l
  {
    var n1 := Inserer(n, i, x);
    var n2 := Inserer(n1, j, y);
    forall k | 0 <= k < |l| ensures n2[k] == l[k] {
      if k < j {
        assert n2[k] == n1[k];
      } else if k > j {
        assert n2[k] == n1[k - 1];
      }
    }
  }

  /** Once the first `x` is gone, the first `y` that came after it moves one place down. */
  lemma PremiereApresRetrait<T>(l: seq<T>, x: T, y: T)
    requires x in l && y in l && IndexOf(l, x) < IndexOf(l, y)
    ensures y in Retirer(l, x) && IndexOf(Retirer(l, x), y) == IndexOf(l, y) - 1
  {
    var i, j := IndexOf(l, x), IndexOf(l, y);
    var m := Retirer(l, x);
    assert m[j - 1] == y;
    RetirerDecale(l, x);
    IndexOfEn(m, y, j - 1);
  }

  /**
   * Removing `x` and then `y`, where the first `x` comes before the first `y`,
   * and inserting them back at their former positions restores the list.
   */
  lemma ReinsertionApresRetrait<T>(l: seq<T>, x: T, y: T)
    requires x in l && y in l && IndexOf(l, x) < IndexOf(l, y)
    ensures |Retirer(Retirer(l, x), y)| == |l| - 2
    ensures Inserer(Inserer(Retirer(Retirer(l, x), y), IndexOf(l, x), x), IndexOf(l, y), y) == l
  {
    var i, j := IndexOf(l, x), IndexOf(l, y);
    var m := Retirer(l, x);
    PremiereApresRetrait(l, x, y);
    var n := Retirer(m, y);
    assert |n| == |l| - 2;
    forall k | 0 <= k < i ensures n[k] == l[k] {
      assert n[k] == m[k];
    }
    forall k | i <= k < j - 1 ensures n[k] == l[k + 1] {
      assert n[k] == m[k];
    }
    forall k | j - 1 <= k < |n| ensures n[k] == l[k + 2] {
      assert n[k] == m[k + 1];
    }
    ReinsererDeux(l, n, i, j, x, y);
  }
}
