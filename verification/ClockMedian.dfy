/** The median of the populated per-second minima: an insertion sort and the
    element of rank n / 2, with what that rank means. */
module ClockMedian {

  predicate Ascending(s: seq<int>) {
    forall i, j | 0 <= i <= j < |s| :: s[i] <= s[j]
  }

  // v in front of the first larger element, counting from the end
  function Insert(s: seq<int>, v: int): (r: seq<int>)
    ensures |r| == |s| + 1
  {
    if s == [] || s[|s| - 1] <= v then s + [v]
    else Insert(s[..|s| - 1], v) + [s[|s| - 1]]
  }

  // Insertion sort of s, from the left
  function Sorted(s: seq<int>): (r: seq<int>)
    ensures |r| == |s|
  {
    if s == [] then [] else Insert(Sorted(s[..|s| - 1]), s[|s| - 1])
  }

  function Median(s: seq<int>): int
    requires s != []
  {
    Sorted(s)[|s| / 2]
  }

  // ---- sorting

  lemma {:induction false} InsertHas(s: seq<int>, v: int)
    ensures multiset(Insert(s, v)) == multiset(s) + multiset{v}
    ensures forall i | 0 <= i <= |s| :: Insert(s, v)[i] == v || Insert(s, v)[i] in s
  {
    if s != [] && s[|s| - 1] > v {
      InsertHas(s[..|s| - 1], v);
      assert s == s[..|s| - 1] + [s[|s| - 1]];
    }
  }

  lemma {:induction false} InsertAscends(s: seq<int>, v: int)
    requires Ascending(s)
    ensures Ascending(Insert(s, v))
  {
    if s != [] && s[|s| - 1] > v {
      var init, last := s[..|s| - 1], s[|s| - 1];
      InsertAscends(init, v);
      InsertHas(init, v);
      hide Insert;
      assert forall i | 0 <= i < |s| :: Insert(init, v)[i] <= last;
      AscendsPush(Insert(init, v), last);
      InsertBefore(s, v);
    }
  }

  lemma InsertBefore(s: seq<int>, v: int)
    requires s != [] && s[|s| - 1] > v
    ensures Insert(s, v) == Insert(s[..|s| - 1], v) + [s[|s| - 1]]
  {
  }

  lemma AscendsPush(s: seq<int>, x: int)
    requires Ascending(s) && forall i | 0 <= i < |s| :: s[i] <= x
    ensures Ascending(s + [x])
  {
  }

  lemma {:induction false} SortedAscends(s: seq<int>)
    ensures Ascending(Sorted(s)) && multiset(Sorted(s)) == multiset(s)
  {
    if s != [] {
      SortedAscends(s[..|s| - 1]);
      InsertAscends(Sorted(s[..|s| - 1]), s[|s| - 1]);
      InsertHas(Sorted(s[..|s| - 1]), s[|s| - 1]);
      assert s == s[..|s| - 1] + [s[|s| - 1]];
    }
  }

  // ---- ranks

  // How many elements are below x
  function Below(s: seq<int>, x: int): (n: nat)
    ensures n <= |s|
  {
    if s == [] then 0 else Below(s[..|s| - 1], x) + if s[|s| - 1] < x then 1 else 0
  }

  lemma {:induction false} BelowInsert(s: seq<int>, v: int, x: int)
    ensures Below(Insert(s, v), x) == Below(s, x) + if v < x then 1 else 0
  {
    if s == [] || s[|s| - 1] <= v {
      assert (s + [v])[..|s|] == s;
    } else {
      var init, last := s[..|s| - 1], s[|s| - 1];
      BelowInsert(init, v, x);
      assert (Insert(init, v) + [last])[..|s|] == Insert(init, v);
    }
  }

  lemma {:induction false} BelowSorted(s: seq<int>, x: int)
    ensures Below(Sorted(s), x) == Below(s, x)
  {
    if s != [] {
      BelowSorted(s[..|s| - 1], x);
      BelowInsert(Sorted(s[..|s| - 1]), s[|s| - 1], x);
    }
  }

  // In an ascending sequence the elements below x come first.
  lemma {:induction false} BelowPrefix(s: seq<int>, x: int, i: nat)
    requires Ascending(s) && i < |s|
    ensures s[i] < x <==> i < Below(s, x)
  {
    var init, last := s[..|s| - 1], s[|s| - 1];
    if i < |s| - 1 {
      BelowPrefix(init, x, i);
      if last < x && s[i] >= x {
        assert false;
      }
    } else {
      if last < x {
        AllBelow(init, x);
      }
    }
  }

  lemma {:induction false} AllBelow(s: seq<int>, x: int)
    requires forall i | 0 <= i < |s| :: s[i] < x
    ensures Below(s, x) == |s|
  {
    if s != [] {
      AllBelow(s[..|s| - 1], x);
    }
  }

  /** The median stays at or above x exactly when at most half of the elements
      are below x. */
  lemma MedianRank(s: seq<int>, x: int)
    requires s != []
    ensures Median(s) >= x <==> Below(s, x) <= |s| / 2
  {
    SortedAscends(s);
    BelowPrefix(Sorted(s), x, |s| / 2);
    BelowSorted(s, x);
  }

  lemma MedianIn(s: seq<int>)
    requires s != []
    ensures Median(s) in s
  {
    SortedAscends(s);
    assert Median(s) in multiset(Sorted(s));
  }

  // ---- shifting every element

  function Plus(s: seq<int>, c: int): (r: seq<int>)
    ensures |r| == |s| && forall i | 0 <= i < |s| :: r[i] == s[i] + c
  {
    seq(|s|, i requires 0 <= i < |s| => s[i] + c)
  }

  lemma {:induction false} InsertPlus(s: seq<int>, v: int, c: int)
    ensures Insert(Plus(s, c), v + c) == Plus(Insert(s, v), c)
  {
    if s == [] || s[|s| - 1] <= v {
    } else {
      assert Plus(s, c)[..|s| - 1] == Plus(s[..|s| - 1], c);
      InsertPlus(s[..|s| - 1], v, c);
    }
  }

  lemma {:induction false} SortedPlus(s: seq<int>, c: int)
    ensures Sorted(Plus(s, c)) == Plus(Sorted(s), c)
  {
    hide Insert;
    if s != [] {
      assert Plus(s, c)[..|s| - 1] == Plus(s[..|s| - 1], c);
      SortedPlus(s[..|s| - 1], c);
      InsertPlus(Sorted(s[..|s| - 1]), s[|s| - 1], c);
    }
  }

  /** Shifting every element shifts the median. */
  lemma MedianPlus(s: seq<int>, c: int)
    requires s != []
    ensures Median(Plus(s, c)) == Median(s) + c
  {
    SortedPlus(s, c);
    hide Sorted;
  }

  // ---- the insertion loop

  lemma InsertMoves(s: seq<int>, v: int, j: nat)
    requires 0 < j <= |s| && s[j - 1] > v
    ensures Insert(s[..j], v) + s[j..] == Insert(s[..j - 1], v) + s[j - 1..]
  {
    assert s[..j][..j - 1] == s[..j - 1];
    assert s[j - 1..] == [s[j - 1]] + s[j..];
  }

  lemma InsertStops(s: seq<int>, v: int, j: nat)
    requires j <= |s| && (j > 0 ==> s[j - 1] <= v)
    ensures Insert(s[..j], v) + s[j..] == s[..j] + [v] + s[j..]
  {
  }

  // One turn of the insertion sort over an array whose first n elements are in order
  method InsertInto(a: array<int>, n: nat, v: int)
    requires n < a.Length
    modifies a
    ensures a[..n + 1] == Insert(old(a[..n]), v)
  {
    hide Insert;
    ghost var s := a[..n];
    var j := n;
    assert s[..n] == s && s + s[n..] == s;
    assert Insert(s, v) + s[n..] == Insert(s, v);
    while j > 0 && a[j - 1] > v
      invariant 0 <= j <= n && forall k | 0 <= k < j :: a[k] == s[k]
      invariant forall k | j <= k < n :: a[k + 1] == s[k]
      invariant Insert(s, v) == Insert(s[..j], v) + s[j..]
    {
      InsertMoves(s, v, j);
      a[j] := a[j - 1];
      j := j - 1;
    }
    InsertStops(s, v, j);
    a[j] := v;
    Placed(a[..n + 1], s, v, j);
  }

  lemma Placed(w: seq<int>, s: seq<int>, v: int, j: nat)
    requires |w| == |s| + 1 && j <= |s| && w[j] == v
    requires forall k | 0 <= k < j :: w[k] == s[k]
    requires forall k | j <= k < |s| :: w[k + 1] == s[k]
    ensures w == s[..j] + [v] + s[j..]
  {
    var r := s[..j] + [v] + s[j..];
    forall k | 0 <= k < |w|
      ensures w[k] == r[k]
    {
      if k > j {
        assert w[k - 1 + 1] == s[k - 1];
      }
    }
  }
}
