/** What the priority queue of fabric/courier/utils/prque does to a plain
    sequence of items and to the indices it reports. */
module QueueSpec {
  import opened Words
  import HeapOrder

  /** A handle of the application's value. */
  type Value = nat

  datatype Item = Item(value: Value, priority: int64)

  /** The queued items in heap order, and the index last reported for a value;
      without a callback nothing is reported. */
  datatype View = View(items: seq<Item>, reported: map<Value, int>, tracking: bool)

  /** Higher priority first, in wrap-around order. */
  predicate Before(a: Item, b: Item) {
    Wrap(a.priority - b.priority) > 0
  }

  function Report(v: View, value: Value, i: int): map<Value, int> {
    if v.tracking then v.reported[value := i] else v.reported
  }

  // ---------- The operations of the stack ----------

  function Pushed(v: View, x: Item): View {
    v.(items := v.items + [x], reported := Report(v, x.value, |v.items|))
  }

  function Popped(v: View): View
    requires v.items != []
  {
    v.(items := v.items[..|v.items| - 1], reported := Report(v, v.items[|v.items| - 1].value, -1))
  }

  /** The callback runs for both items, the one moving to i first. */
  function Swap(v: View, i: nat, j: nat): (r: View)
    requires i < |v.items| && j < |v.items|
    ensures |r.items| == |v.items| && r.tracking == v.tracking
  {
    var v1 := v.(reported := Report(v, v.items[j].value, i));
    v1.(reported := Report(v1, v.items[i].value, j), items := HeapOrder.Swapped(v.items, i, j))
  }

  // ---------- The operations of container/heap over Less and Swap ----------

  function Up(v: View, j: nat): (r: View)
    requires j < |v.items|
    ensures |r.items| == |v.items| && r.tracking == v.tracking
    decreases j
  {
    if j == 0 || !Before(v.items[j], v.items[(j - 1) / 2]) then v
    else Up(Swap(v, (j - 1) / 2, j), (j - 1) / 2)
  }

  function Child(v: View, i: nat, n: nat): (j: nat)
    requires 2 * i + 1 < n <= |v.items|
    ensures i < j < n
  {
    if 2 * i + 2 < n && Before(v.items[2 * i + 2], v.items[2 * i + 1]) then 2 * i + 2 else 2 * i + 1
  }

  predicate Sinks(v: View, i: nat, n: nat)
    requires n <= |v.items|
  {
    2 * i + 1 < n && Before(v.items[Child(v, i, n)], v.items[i])
  }

  function Down(v: View, i: nat, n: nat): (r: View)
    requires n <= |v.items|
    ensures |r.items| == |v.items| && r.tracking == v.tracking
    decreases n - i
  {
    if !Sinks(v, i, n) then v
    else Down(Swap(v, i, Child(v, i, n)), Child(v, i, n), n)
  }

  function HeapPush(v: View, x: Item): View {
    Up(Pushed(v, x), |v.items|)
  }

  /** The rearrangement that brings the item at i to the end. */
  function Extract(v: View, i: nat): (r: View)
    requires i < |v.items|
    ensures |r.items| == |v.items| && r.tracking == v.tracking
  {
    var n := |v.items| - 1;
    if i == n then v
    else
      var v1 := Swap(v, i, n);
      if Sinks(v1, i, n) then Down(v1, i, n) else Up(v1, i)
  }

  function HeapRemove(v: View, i: nat): (View, Item)
    requires i < |v.items|
  {
    var v1 := Extract(v, i);
    (Popped(v1), v1.items[|v1.items| - 1])
  }

  /** heap.Pop swaps first and last even when they coincide. */
  function HeapPop(v: View): (View, Item)
    requires v.items != []
  {
    var n := |v.items| - 1;
    var v1 := Down(Swap(v, 0, n), 0, n);
    (Popped(v1), v1.items[n])
  }

  // ---------- The multiset of items ----------

  lemma SwapPermutes(v: View, i: nat, j: nat)
    requires i < |v.items| && j < |v.items|
    ensures multiset(Swap(v, i, j).items) == multiset(v.items)
  {
  }

  lemma {:induction false} UpPermutes(v: View, j: nat)
    requires j < |v.items|
    ensures multiset(Up(v, j).items) == multiset(v.items)
    decreases j
  {
    if j > 0 && Before(v.items[j], v.items[(j - 1) / 2]) {
      SwapPermutes(v, (j - 1) / 2, j);
      UpPermutes(Swap(v, (j - 1) / 2, j), (j - 1) / 2);
    }
  }

  lemma {:induction false} DownPermutes(v: View, i: nat, n: nat)
    requires n <= |v.items|
    ensures multiset(Down(v, i, n).items) == multiset(v.items)
    decreases n - i
  {
    if Sinks(v, i, n) {
      SwapPermutes(v, i, Child(v, i, n));
      DownPermutes(Swap(v, i, Child(v, i, n)), Child(v, i, n), n);
    }
  }

  /** Whatever the priorities, pushing adds exactly the item pushed. */
  lemma PushAddsOne(v: View, x: Item)
    ensures multiset(HeapPush(v, x).items) == multiset(v.items) + multiset{x}
  {
    UpPermutes(Pushed(v, x), |v.items|);
  }

  lemma PoppedSplits(v: View)
    requires v.items != []
    ensures multiset(v.items) == multiset(Popped(v).items) + multiset{v.items[|v.items| - 1]}
  {
    assert v.items == v.items[..|v.items| - 1] + [v.items[|v.items| - 1]];
  }

  lemma ExtractPermutes(v: View, i: nat)
    requires i < |v.items|
    ensures multiset(Extract(v, i).items) == multiset(v.items)
  {
    hide Swap, Up, Down, Sinks;
    var n := |v.items| - 1;
    if i != n {
      var v1 := Swap(v, i, n);
      SwapPermutes(v, i, n);
      if Sinks(v1, i, n) { DownPermutes(v1, i, n); } else { UpPermutes(v1, i); }
    }
  }

  /** Whatever the priorities, Remove takes exactly one item and returns it. */
  lemma RemoveTakesOne(v: View, i: nat)
    requires i < |v.items|
    ensures multiset(v.items) == multiset(HeapRemove(v, i).0.items) + multiset{HeapRemove(v, i).1}
  {
    ExtractPermutes(v, i);
    hide Extract, Popped;
    PoppedSplits(Extract(v, i));
  }

  lemma PopTakesOne(v: View)
    requires v.items != []
    ensures multiset(v.items) == multiset(HeapPop(v).0.items) + multiset{HeapPop(v).1}
  {
    var n := |v.items| - 1;
    SwapPermutes(v, 0, n);
    DownPermutes(Swap(v, 0, n), 0, n);
    PoppedSplits(Down(Swap(v, 0, n), 0, n));
  }

  // ---------- Reported indices ----------

  /** Each queued value was last reported at its true position. */
  ghost predicate Tracked(v: View) {
    v.tracking && forall i :: 0 <= i < |v.items| ==>
      v.items[i].value in v.reported && v.reported[v.items[i].value] == i
  }

  ghost predicate Absent(v: View, value: Value) {
    forall i :: 0 <= i < |v.items| ==> v.items[i].value != value
  }

  /** The stack tracks a pushed value exactly when it was not queued already. */
  lemma PushedTrackedIff(v: View, x: Item)
    requires Tracked(v)
    ensures Tracked(Pushed(v, x)) <==> Absent(v, x.value)
  {
    var w := Pushed(v, x);
    if !Absent(v, x.value) {
      var i :| 0 <= i < |v.items| && v.items[i].value == x.value;
      assert w.items[i].value == x.value && w.reported[x.value] == |v.items|;
    }
  }

  lemma SwapTracked(v: View, i: nat, j: nat)
    requires i < |v.items| && j < |v.items| && Tracked(v)
    ensures Tracked(Swap(v, i, j))
  {
    assert forall a, b :: 0 <= a < b < |v.items| ==> v.items[a].value != v.items[b].value;
  }

  lemma {:induction false} UpTracked(v: View, j: nat)
    requires j < |v.items| && Tracked(v)
    ensures Tracked(Up(v, j))
    decreases j
  {
    if j > 0 && Before(v.items[j], v.items[(j - 1) / 2]) {
      SwapTracked(v, (j - 1) / 2, j);
      UpTracked(Swap(v, (j - 1) / 2, j), (j - 1) / 2);
    }
  }

  lemma {:induction false} DownTracked(v: View, i: nat, n: nat)
    requires n <= |v.items| && Tracked(v)
    ensures Tracked(Down(v, i, n))
    decreases n - i
  {
    if Sinks(v, i, n) {
      SwapTracked(v, i, Child(v, i, n));
      DownTracked(Swap(v, i, Child(v, i, n)), Child(v, i, n), n);
    }
  }

  lemma PoppedTracked(v: View)
    requires v.items != [] && Tracked(v)
    ensures Tracked(Popped(v)) && Popped(v).reported[v.items[|v.items| - 1].value] == -1
  {
    var n := |v.items| - 1;
    assert forall i :: 0 <= i < n ==> v.items[i].value != v.items[n].value;
  }

  lemma PushTracked(v: View, x: Item)
    requires Tracked(v) && Absent(v, x.value)
    ensures Tracked(HeapPush(v, x))
  {
    PushedTrackedIff(v, x);
    UpTracked(Pushed(v, x), |v.items|);
  }

  /** After a removal the survivors are tracked and the item taken reads -1. */
  lemma RemoveTracked(v: View, i: nat)
    requires i < |v.items| && Tracked(v)
    ensures var (w, x) := HeapRemove(v, i); Tracked(w) && x.value in w.reported && w.reported[x.value] == -1
  {
    var n := |v.items| - 1;
    if i != n {
      var v1 := Swap(v, i, n);
      SwapTracked(v, i, n);
      if Sinks(v1, i, n) { DownTracked(v1, i, n); } else { UpTracked(v1, i); }
    }
    PoppedTracked(Extract(v, i));
  }

  lemma {:induction false} UpKeepsAbove(v: View, j: nat, m: nat)
    requires j < m < |v.items|
    ensures Up(v, j).items[m] == v.items[m]
    decreases j
  {
    if j > 0 && Before(v.items[j], v.items[(j - 1) / 2]) {
      UpKeepsAbove(Swap(v, (j - 1) / 2, j), (j - 1) / 2, m);
    }
  }

  lemma {:induction false} DownKeepsAbove(v: View, i: nat, n: nat, m: nat)
    requires i < n <= m < |v.items|
    ensures Down(v, i, n).items[m] == v.items[m]
    decreases n - i
  {
    if Sinks(v, i, n) {
      DownKeepsAbove(Swap(v, i, Child(v, i, n)), Child(v, i, n), n, m);
    }
  }

  /** Whatever the priorities, Remove returns the item at the given index. */
  lemma RemoveReturnsItemAt(v: View, i: nat)
    requires i < |v.items|
    ensures HeapRemove(v, i).1 == v.items[i]
  {
    var n := |v.items| - 1;
    if i != n {
      var v1 := Swap(v, i, n);
      if Sinks(v1, i, n) { DownKeepsAbove(v1, i, n, n); } else { UpKeepsAbove(v1, i, n); }
    }
  }

  /** The last index reported for a queued value is where Remove finds it: that
      item and no other leaves, every other one stays tracked, and the index
      reported for the value becomes -1. */
  lemma RemoveByReportedIndex(v: View, x: Item)
    requires Tracked(v) && x in v.items
    ensures var i := v.reported[x.value];
            && 0 <= i < |v.items|
            && var (w, y) := HeapRemove(v, i);
               && y == x && Tracked(w) && w.reported[x.value] == -1
               && multiset(v.items) == multiset(w.items) + multiset{x}
  {
    var m :| 0 <= m < |v.items| && v.items[m] == x;
    RemoveReturnsItemAt(v, m);
    RemoveTakesOne(v, m);
    RemoveTracked(v, m);
  }

  lemma PopTracked(v: View)
    requires v.items != [] && Tracked(v)
    ensures var (w, x) := HeapPop(v); Tracked(w) && x.value in w.reported && w.reported[x.value] == -1
  {
    var n := |v.items| - 1;
    SwapTracked(v, 0, n);
    DownTracked(Swap(v, 0, n), 0, n);
    PoppedTracked(Down(Swap(v, 0, n), 0, n));
  }

  // ---------- Priorities in a window ----------

  /** How far a priority lies above the base of the window, going round. */
  function Rank(base: int, x: Item): nat {
    (x.priority - base) % U64
  }

  /** All priorities lie in one cyclic window shorter than half the range. */
  ghost predicate InWindow(base: int, items: seq<Item>) {
    forall i :: 0 <= i < |items| ==> Rank(base, items[i]) < I63
  }

  function Keys(base: int, items: seq<Item>): (k: seq<int>)
    ensures |k| == |items|
  {
    seq(|items|, i requires 0 <= i < |items| => Rank(base, items[i]))
  }

  /** Within a window the wrap-around comparison compares ranks. */
  lemma BeforeComparesRanks(base: int, a: Item, b: Item)
    requires Rank(base, a) < I63 && Rank(base, b) < I63
    ensures Before(a, b) <==> Rank(base, a) > Rank(base, b)
  {
    var d := Rank(base, a) - Rank(base, b);
    var q := (a.priority - base) / U64 - (b.priority - base) / U64;
    assert a.priority - b.priority == d + U64 * q;
    assert (d + I63 + U64 * q) % U64 == d + I63;
  }

  /** Read as plain integers, the comparison is right exactly when the difference
      fits in 64 bits. */
  lemma BeforeIsGreaterIff(a: Item, b: Item)
    ensures (Before(a, b) <==> a.priority > b.priority) <==> -I63 <= a.priority - b.priority < I63
  {
  }

  /** Outside a window no item need be first. */
  lemma BeforeCanCycle()
    ensures var a, b, c := Item(0, 0), Item(1, 0x6000_0000_0000_0000), Item(2, -0x4000_0000_0000_0000);
            Before(b, a) && Before(a, c) && Before(c, b)
  {
  }

  lemma SwapKeys(base: int, v: View, i: nat, j: nat)
    requires i < |v.items| && j < |v.items| && InWindow(base, v.items)
    ensures Keys(base, Swap(v, i, j).items) == HeapOrder.Swapped(Keys(base, v.items), i, j)
    ensures InWindow(base, Swap(v, i, j).items)
  {
  }

  /** Sifting items in a window is sifting their ranks. */
  lemma {:induction false} UpKeys(base: int, v: View, j: nat)
    requires j < |v.items| && InWindow(base, v.items)
    ensures Keys(base, Up(v, j).items) == HeapOrder.Up(Keys(base, v.items), j)
    ensures InWindow(base, Up(v, j).items)
    decreases j
  {
    if j > 0 {
      var i := (j - 1) / 2;
      BeforeComparesRanks(base, v.items[j], v.items[i]);
      hide Before, Rank;
      if Before(v.items[j], v.items[i]) {
        SwapKeys(base, v, i, j);
        UpKeys(base, Swap(v, i, j), i);
      }
    }
  }

  lemma SinksKeys(base: int, v: View, i: nat, n: nat)
    requires n <= |v.items| && InWindow(base, v.items)
    ensures Sinks(v, i, n) <==> HeapOrder.Sinks(Keys(base, v.items), i, n)
    ensures Sinks(v, i, n) ==> Child(v, i, n) == HeapOrder.Child(Keys(base, v.items), i, n)
  {
    if 2 * i + 1 < n {
      if 2 * i + 2 < n { BeforeComparesRanks(base, v.items[2 * i + 2], v.items[2 * i + 1]); }
      BeforeComparesRanks(base, v.items[Child(v, i, n)], v.items[i]);
    }
  }

  lemma {:induction false} DownKeys(base: int, v: View, i: nat, n: nat)
    requires n <= |v.items| && InWindow(base, v.items)
    ensures Keys(base, Down(v, i, n).items) == HeapOrder.Down(Keys(base, v.items), i, n)
    ensures InWindow(base, Down(v, i, n).items)
    decreases n - i
  {
    SinksKeys(base, v, i, n);
    hide Before, Rank;
    if Sinks(v, i, n) {
      SwapKeys(base, v, i, Child(v, i, n));
      DownKeys(base, Swap(v, i, Child(v, i, n)), Child(v, i, n), n);
    }
  }

  /** A queue whose priorities share a window, in heap order. */
  ghost predicate HeapIn(base: int, v: View) {
    InWindow(base, v.items) && HeapOrder.Heap(Keys(base, v.items), |v.items|)
  }

  lemma PushKeepsHeap(base: int, v: View, x: Item)
    requires HeapIn(base, v) && Rank(base, x) < I63
    ensures HeapIn(base, HeapPush(v, x))
  {
    hide Rank;
    var w := Pushed(v, x);
    assert Keys(base, w.items) == Keys(base, v.items) + [Rank(base, x)];
    assert InWindow(base, w.items);
    UpKeys(base, w, |v.items|);
    HeapOrder.PushedIsHeap(Keys(base, v.items), Rank(base, x));
  }

  lemma PoppedKeepsHeap(base: int, v: View)
    requires v.items != [] && InWindow(base, v.items) && HeapOrder.Heap(Keys(base, v.items), |v.items| - 1)
    ensures HeapIn(base, Popped(v))
  {
    hide Rank;
    var n := |v.items| - 1;
    assert Keys(base, Popped(v).items) == Keys(base, v.items)[..n];
    forall m | 0 < m < n ensures HeapOrder.Ordered(Keys(base, Popped(v).items), m) {
      assert HeapOrder.Ordered(Keys(base, v.items), m);
    }
  }

  lemma RemoveKeepsHeap(base: int, v: View, i: nat)
    requires i < |v.items| && HeapIn(base, v)
    ensures HeapIn(base, HeapRemove(v, i).0)
    ensures Rank(base, HeapRemove(v, i).1) == Rank(base, v.items[i])
  {
    ExtractKeys(base, v, i);
    hide Rank;
    HeapOrder.RemovedIsHeap(Keys(base, v.items), i);
    PoppedKeepsHeap(base, Extract(v, i));
    assert Keys(base, Extract(v, i).items)[|v.items| - 1] == Rank(base, HeapRemove(v, i).1);
  }

  lemma ExtractKeys(base: int, v: View, i: nat)
    requires i < |v.items| && InWindow(base, v.items)
    ensures Keys(base, Extract(v, i).items) == HeapOrder.Removed(Keys(base, v.items), i)
    ensures InWindow(base, Extract(v, i).items)
  {
    hide Rank, Up, Down, Sinks, HeapOrder.Up, HeapOrder.Down, HeapOrder.Sinks;
    var n := |v.items| - 1;
    if i != n {
      var v1 := Swap(v, i, n);
      SwapKeys(base, v, i, n);
      SinksKeys(base, v1, i, n);
      if Sinks(v1, i, n) { DownKeys(base, v1, i, n); } else { UpKeys(base, v1, i); }
    }
  }

  /** Pop returns an item no other queued item precedes. */
  lemma PopReturnsMaximum(base: int, v: View)
    requires v.items != [] && HeapIn(base, v)
    ensures HeapIn(base, HeapPop(v).0)
    ensures forall x :: x in v.items ==> !Before(x, HeapPop(v).1) && Rank(base, x) <= Rank(base, HeapPop(v).1)
  {
    var n := |v.items| - 1;
    PopIsRemoveAtRoot(base, v);
    RemoveKeepsHeap(base, v, 0);
    forall x | x in v.items
      ensures !Before(x, HeapPop(v).1) && Rank(base, x) <= Rank(base, HeapPop(v).1)
    {
      var m :| 0 <= m < |v.items| && v.items[m] == x;
      HeapOrder.RootIsMaximum(Keys(base, v.items), |v.items|, m);
      assert Rank(base, v.items[0]) < I63;
      BeforeComparesRanks(base, x, HeapPop(v).1);
    }
  }

  lemma PopIsRemoveAtRoot(base: int, v: View)
    requires v.items != []
    ensures HeapPop(v).0.items == HeapRemove(v, 0).0.items && HeapPop(v).1 == HeapRemove(v, 0).1
  {
    var n := |v.items| - 1;
    if n == 0 {
      assert Swap(v, 0, 0).items == v.items;
    }
  }

  // ---------- Draining ----------

  lemma PopShrinks(v: View)
    requires v.items != []
    ensures |HeapPop(v).0.items| == |v.items| - 1
  {
  }

  /** The items in the order in which repeated Pop returns them. */
  function Drained(v: View): seq<Item>
    decreases |v.items|
  {
    if v.items == [] then []
    else
      var (w, x) := HeapPop(v);
      [x] + Drained(w)
  }

  /** Whatever the priorities, draining returns every queued item exactly once. */
  lemma {:induction false} DrainedPermutes(v: View)
    ensures multiset(Drained(v)) == multiset(v.items)
    decreases |v.items|
  {
    if v.items != [] {
      PopTakesOne(v);
      DrainedPermutes(HeapPop(v).0);
      assert multiset([HeapPop(v).1] + Drained(HeapPop(v).0)) ==
             multiset{HeapPop(v).1} + multiset(Drained(HeapPop(v).0));
    }
  }

  /** Within a window draining returns the items by falling rank. */
  lemma {:induction false} DrainedDescends(base: int, v: View)
    requires HeapIn(base, v)
    ensures forall i, j :: 0 <= i < j < |Drained(v)| ==> Rank(base, Drained(v)[i]) >= Rank(base, Drained(v)[j])
    decreases |v.items|
  {
    if v.items != [] {
      var (w, x) := HeapPop(v);
      var rest := Drained(w);
      PopReturnsMaximum(base, v);
      PopTakesOne(v);
      DrainedPermutes(w);
      DrainedDescends(base, w);
      forall y | y in rest ensures Rank(base, y) <= Rank(base, x) {
        assert y in multiset(rest) && y in multiset(v.items);
      }
      forall i, j | 0 <= i < j < |Drained(v)|
        ensures Rank(base, Drained(v)[i]) >= Rank(base, Drained(v)[j])
      {
        if i == 0 { assert rest[j - 1] in rest; }
      }
    }
  }
}
