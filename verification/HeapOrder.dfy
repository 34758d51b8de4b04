/** The sift operations of a binary max-heap on a sequence of keys, as Go's
    container/heap performs them when driven by the Less and Swap of
    fabric/courier/utils/prque/sstack.go. */
module HeapOrder {

  function Parent(j: nat): nat
    requires j > 0
  {
    (j - 1) / 2
  }

  function Swapped<T>(s: seq<T>, i: nat, j: nat): (r: seq<T>)
    requires i < |s| && j < |s|
    ensures |r| == |s|
  {
    s[i := s[j]][j := s[i]]
  }

  /** Sift up from j. */
  function Up(k: seq<int>, j: nat): (r: seq<int>)
    requires j < |k|
    ensures |r| == |k|
    decreases j
  {
    if j == 0 || !(k[j] > k[Parent(j)]) then k
    else Up(Swapped(k, Parent(j), j), Parent(j))
  }

  /** The larger child of i among the first n, the left one on a tie. */
  function Child(k: seq<int>, i: nat, n: nat): (j: nat)
    requires 2 * i + 1 < n <= |k|
    ensures i < j < n && Parent(j) == i
  {
    if 2 * i + 2 < n && k[2 * i + 2] > k[2 * i + 1] then 2 * i + 2 else 2 * i + 1
  }

  predicate Sinks(k: seq<int>, i: nat, n: nat)
    requires n <= |k|
  {
    2 * i + 1 < n && k[Child(k, i, n)] > k[i]
  }

  /** Sift down from i among the first n. */
  function Down(k: seq<int>, i: nat, n: nat): (r: seq<int>)
    requires n <= |k|
    ensures |r| == |k|
    decreases n - i
  {
    if !Sinks(k, i, n) then k
    else Down(Swapped(k, i, Child(k, i, n)), Child(k, i, n), n)
  }

  // ---------- Heap order ----------

  predicate Ordered(k: seq<int>, m: nat)
    requires 0 < m < |k|
  {
    k[Parent(m)] >= k[m]
  }

  /** No key among the first n exceeds its parent. */
  predicate Heap(k: seq<int>, n: nat)
    requires n <= |k|
  {
    forall m :: 0 < m < n ==> Ordered(k, m)
  }

  /** Ordered except that position i may hold any key; keys below i are still
      bounded by the key above i. */
  predicate HeapAround(k: seq<int>, n: nat, i: nat)
    requires n <= |k|
  {
    && (forall m :: 0 < m < n && m != i && Parent(m) != i ==> Ordered(k, m))
    && (forall m :: 0 < i && 0 < m < n && Parent(m) == i ==> k[Parent(i)] >= k[m])
  }

  lemma {:induction false} RootIsMaximum(k: seq<int>, n: nat, m: nat)
    requires m < n <= |k| && Heap(k, n)
    ensures k[0] >= k[m]
    decreases m
  {
    if m > 0 {
      RootIsMaximum(k, n, Parent(m));
      assert Ordered(k, m);
    }
  }

  /** Sifting up repairs a heap that is wrong only between j and its parent. */
  lemma {:induction false} UpRepairs(k: seq<int>, n: nat, j: nat)
    requires j < n <= |k|
    requires HeapAround(k, n, j)
    requires forall m :: 0 < m < n && Parent(m) == j ==> Ordered(k, m)
    ensures Heap(Up(k, j), n)
    ensures forall m :: j < m < |k| ==> Up(k, j)[m] == k[m]
    decreases j
  {
    if j > 0 && k[j] > k[Parent(j)] {
      var i := Parent(j);
      var k1 := Swapped(k, i, j);
      forall m | 0 < m < n && m != i && Parent(m) != i ensures Ordered(k1, m) {
        assert m != j && (Parent(m) == j || Ordered(k, m));
      }
      forall m | 0 < m < n && Parent(m) == i ensures Ordered(k1, m) {
        if m != j { assert Ordered(k, m); }
      }
      if 0 < i {
        assert Ordered(k, i);
        forall m | 0 < m < n && Parent(m) == i ensures k1[Parent(i)] >= k1[m] {
          if m != j { assert Ordered(k, m); }
        }
      }
      UpRepairs(k1, n, i);
    } else {
      forall m | 0 < m < n ensures Ordered(k, m) {}
    }
  }

  /** Sifting down leaves at most position i wrong, and nothing once a key moved. */
  lemma {:induction false} DownRepairs(k: seq<int>, n: nat, i: nat)
    requires n <= |k| && HeapAround(k, n, i)
    ensures forall m :: 0 < m < n && m != i ==> Ordered(Down(k, i, n), m)
    ensures Sinks(k, i, n) ==> Heap(Down(k, i, n), n)
    ensures forall m :: 0 <= m < |k| && (m < i || n <= m) ==> Down(k, i, n)[m] == k[m]
    decreases n - i
  {
    if Sinks(k, i, n) {
      var j := Child(k, i, n);
      var k1 := Swapped(k, i, j);
      SinkStep(k, n, i);
      DownRepairs(k1, n, j);
      assert Ordered(k1, j);
    } else {
      forall m | 0 < m < n && m != i ensures Ordered(k, m) {
        if Parent(m) == i {
          assert 2 * i + 1 < n && k[Child(k, i, n)] >= k[m];
        }
      }
    }
  }

  lemma SinkStep(k: seq<int>, n: nat, i: nat)
    requires n <= |k| && HeapAround(k, n, i) && Sinks(k, i, n)
    ensures HeapAround(Swapped(k, i, Child(k, i, n)), n, Child(k, i, n))
    ensures Ordered(Swapped(k, i, Child(k, i, n)), Child(k, i, n))
  {
    var j := Child(k, i, n);
    var k1 := Swapped(k, i, j);
    forall m | 0 < m < n && m != j && Parent(m) != j ensures Ordered(k1, m) {
      if m == i {
        assert k[Parent(i)] >= k[j];
      } else if Parent(m) == i {
        assert k[j] >= k[m];
      } else {
        assert Ordered(k, m);
      }
    }
    forall m | 0 < m < n && Parent(m) == j ensures k1[Parent(j)] >= k1[m] {
      assert Ordered(k, m);
    }
  }

  // ---------- The three heap operations on keys ----------

  /** heap.Push: append, then sift up. */
  lemma PushedIsHeap(k: seq<int>, x: int)
    requires Heap(k, |k|)
    ensures Heap(Up(k + [x], |k|), |k| + 1)
  {
    var k1 := k + [x];
    forall m | 0 < m < |k1| && m != |k| ensures Ordered(k1, m) {
      assert Ordered(k, m);
    }
    UpRepairs(k1, |k1|, |k|);
  }

  /** heap.Remove at i: the last key takes its place, sinks or else rises. */
  function Removed(k: seq<int>, i: nat): (r: seq<int>)
    requires i < |k|
    ensures |r| == |k|
  {
    var n := |k| - 1;
    if i == n then k
    else
      var k1 := Swapped(k, i, n);
      if Sinks(k1, i, n) then Down(k1, i, n) else Up(k1, i)
  }

  /** The removed key ends last and the others form a heap again. heap.Pop is
      the removal at 0. */
  lemma RemovedIsHeap(k: seq<int>, i: nat)
    requires i < |k| && Heap(k, |k|)
    ensures var n := |k| - 1; Heap(Removed(k, i), n) && Removed(k, i)[n] == k[i]
  {
    var n := |k| - 1;
    if i == n {
      assert forall m :: 0 < m < n ==> Ordered(k, m);
    } else {
      var k1 := Swapped(k, i, n);
      ReplacedIsHeapAround(k, i);
      DownRepairs(k1, n, i);
      if !Sinks(k1, i, n) {
        forall m | 0 < m < n && Parent(m) == i ensures Ordered(k1, m) {
          assert Ordered(Down(k1, i, n), m);
        }
        UpRepairs(k1, n, i);
      }
    }
  }

  lemma ReplacedIsHeapAround(k: seq<int>, i: nat)
    requires i < |k| - 1 && Heap(k, |k|)
    ensures HeapAround(Swapped(k, i, |k| - 1), |k| - 1, i)
  {
    var n := |k| - 1;
    var k1 := Swapped(k, i, n);
    forall m | 0 < m < n && m != i && Parent(m) != i ensures Ordered(k1, m) {
      assert Ordered(k, m);
    }
    forall m | 0 < i && 0 < m < n && Parent(m) == i ensures k1[Parent(i)] >= k1[m] {
      assert Ordered(k, m) && Ordered(k, i);
    }
  }
}
