/** Sizes of sets and slots of rings: what several modules count with. */
module Counting {

  lemma SubsetSize<T>(a: set<T>, b: set<T>)
    requires a <= b
    ensures |a| <= |b|
  {
    assert b == a + (b - a);
  }

  /** The elements of a sequence are no more than its length, and as many where none repeats. */
  lemma {:induction false} Elements<T>(s: seq<T>)
    ensures |set x | x in s| <= |s|
    ensures (forall i, j :: 0 <= i < j < |s| ==> s[i] != s[j]) ==> |set x | x in s| == |s|
  {
    if s == [] {
      assert (set x | x in s) == {};
    } else {
      var n := |s| - 1;
      Elements(s[..n]);
      assert s == s[..n] + [s[n]];
      assert (set x | x in s) == (set x | x in s[..n]) + {s[n]};
    }
  }

  /** What a and then b add to s. */
  lemma AddedInTurn<T>(s: set<T>, a: set<T>, b: set<T>)
    ensures |(a + b) - s| == |a - s| + |b - (s + a)|
  {
    assert (a + b) - s == (a - s) + (b - (s + a));
  }

  /** Two positions of a ring less than its size apart have different slots. */
  lemma OtherSlot(k: nat, m: nat, size: nat)
    requires k < m < k + size
    ensures k % size != m % size
  {
    var turns := m / size - k / size;
    if k % size == m % size {
      assert m - k == turns * size by { Turns(k, m, size); }
      if turns >= 1 { AtLeast(turns, size); } else { AtLeast(1 - turns, size); }
      assert false;
    }
  }

  lemma Turns(k: nat, m: nat, size: nat)
    requires 0 < size
    ensures m - k == (m / size - k / size) * size + m % size - k % size
  {
  }

  lemma AtLeast(t: int, size: nat)
    requires t >= 1
    ensures t * size >= size && (1 - t) * size <= 0
  {
  }
}
