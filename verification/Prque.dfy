/** The priority queue (fabric/courier/utils/prque/prque.go) with the sift loops
    of Go's container/heap over the paged stack, and the queue of pending
    transactions built on it (fabric/courier/txmanager.go, lines 102-118, 151-160). */
module PriorityQueue {
  import opened Options
  import opened Words
  import opened QueueSpec
  import opened PagedStack

  class Prque {
    var cont: SStack

    ghost predicate Valid()
      reads this, cont, cont.blocks
    {
      cont.Valid()
    }

    ghost function Abs(): View
      requires Valid()
      reads this, cont, cont.blocks
    {
      cont.Abs()
    }

    constructor (tracking: bool)
      ensures Valid() && Abs() == View([], map[], tracking) && fresh(cont) && fresh(cont.blocks)
    {
      cont := new SStack(tracking);
    }

    /** heap.up */
    method SiftUp(j0: nat)
      requires Valid() && j0 < cont.size
      modifies cont, cont.blocks
      ensures Valid() && cont.blocks == old(cont.blocks) && Abs() == Up(old(Abs()), j0)
    {
      hide SStack.Valid, SStack.Abs, Before, QueueSpec.Swap;
      var j: nat := j0;
      while true
        invariant Valid() && cont.blocks == old(cont.blocks) && cont.size == old(cont.size)
        invariant j < cont.size && Up(Abs(), j) == Up(old(Abs()), j0)
        decreases j
      {
        var i: nat := if j == 0 then 0 else (j - 1) / 2;
        if i == j { return; }
        var less := cont.Less(j, i);
        if !less { return; }
        cont.Swap(i, j);
        j := i;
      }
    }

    /** heap.down; says whether the item moved. */
    method SiftDown(i0: nat, n: nat) returns (moved: bool)
      requires Valid() && n <= cont.size
      modifies cont, cont.blocks
      ensures Valid() && cont.blocks == old(cont.blocks) && Abs() == Down(old(Abs()), i0, n)
      ensures moved == Sinks(old(Abs()), i0, n)
    {
      hide SStack.Valid, SStack.Abs, Before, QueueSpec.Swap;
      var i: nat := i0;
      while true
        invariant Valid() && cont.blocks == old(cont.blocks) && cont.size == old(cont.size)
        invariant i0 <= i && Down(Abs(), i, n) == Down(old(Abs()), i0, n)
        invariant i == i0 ==> Abs() == old(Abs())
        invariant i > i0 ==> Sinks(old(Abs()), i0, n)
        decreases n - i
      {
        var j1 := 2 * i + 1;
        if j1 >= n { return i > i0; }
        var j := j1;
        var j2 := j1 + 1;
        if j2 < n {
          var right := cont.Less(j2, j1);
          if right { j := j2; }
        }
        var less := cont.Less(j, i);
        if !less { return i > i0; }
        cont.Swap(i, j);
        i := j;
      }
    }

    method Push(data: Value, priority: int64)
      requires Valid()
      modifies cont, cont.blocks
      ensures Valid() && Abs() == HeapPush(old(Abs()), Item(data, priority))
      ensures old(cont.blocks) <= cont.blocks && fresh(cont.blocks[|old(cont.blocks)|..])
    {
      hide SStack.Valid, SStack.Abs, Before, QueueSpec.Swap;
      cont.Push(Item(data, priority));
      assert cont.blocks == old(cont.blocks) + cont.blocks[|old(cont.blocks)|..];
      SiftUp(cont.size - 1);
    }

    method Pop() returns (data: Value, priority: int64)
      requires Valid() && cont.size > 0
      modifies cont, cont.blocks
      ensures Valid() && cont.blocks == old(cont.blocks)
      ensures (Abs(), Item(data, priority)) == HeapPop(old(Abs()))
    {
      hide SStack.Valid, SStack.Abs, Before, QueueSpec.Swap, Down, Sinks, Popped;
      var n := cont.size - 1;
      cont.Swap(0, n);
      var moved := SiftDown(0, n);
      var x := cont.Pop();
      return x.value, x.priority;
    }

    /** A negative index takes nothing. */
    method Remove(i: int) returns (r: Option<Item>)
      requires Valid() && i < cont.size
      modifies cont, cont.blocks
      ensures Valid() && cont.blocks == old(cont.blocks)
      ensures i < 0 ==> r == None && Abs() == old(Abs())
      ensures i >= 0 ==> r.Some? && (Abs(), r.value) == HeapRemove(old(Abs()), i)
    {
      hide SStack.Valid, SStack.Abs, Before, QueueSpec.Swap, Up, Sinks, Popped;
      if i < 0 { return None; }
      var n := cont.size - 1;
      if n != i {
        cont.Swap(i, n);
        var moved := SiftDown(i, n);
        if !moved {
          SiftUp(i);
        }
      }
      assert Abs() == Extract(old(Abs()), i);
      var x := cont.Pop();
      return Some(x);
    }

    method Empty() returns (b: bool)
      requires Valid()
      ensures b == (Abs().items == [])
    {
      var n := cont.Len();
      b := n == 0;
    }

    method Reset()
      requires Valid()
      modifies cont
      ensures Valid() && fresh(cont.blocks) && Abs() == old(Abs()).(items := [])
    {
      cont.Reset();
    }
  }

  // ---------- Pending transactions ----------

  datatype Status = Finished | OutOnceCompleted | Other

  datatype CrossTx = CrossTx(handle: Value, seconds: int64, status: Status)

  /** The priority of a transaction: its negated time stamp, in 64 bits. */
  function ItemOf(tx: CrossTx): Item {
    Item(tx.handle, Wrap(-(tx.seconds as int)))
  }

  function Pending(txs: seq<CrossTx>): seq<CrossTx> {
    if txs == [] then []
    else (if txs[0].status.Other? then [txs[0]] else []) + Pending(txs[1..])
  }

  function Stored(txs: seq<CrossTx>): seq<CrossTx> {
    if txs == [] then []
    else (if txs[0].status.OutOnceCompleted? then [] else [txs[0]]) + Stored(txs[1..])
  }

  lemma PendingUnfold(txs: seq<CrossTx>, i: nat)
    requires i < |txs|
    ensures Pending(txs[i..]) == (if txs[i].status.Other? then [txs[i]] else []) + Pending(txs[i + 1..])
    ensures Stored(txs[i..]) == (if txs[i].status.OutOnceCompleted? then [] else [txs[i]]) + Stored(txs[i + 1..])
    ensures multiset(txs[..i + 1]) == multiset(txs[..i]) + multiset{txs[i]}
  {
    assert txs[i..][0] == txs[i] && txs[i..][1..] == txs[i + 1..] && txs[..i + 1] == txs[..i] + [txs[i]];
  }

  lemma PushAllUnfold(v: View, tx: CrossTx, rest: seq<CrossTx>)
    ensures PushAll(v, [tx] + rest) == PushAll(HeapPush(v, ItemOf(tx)), rest)
    ensures [] + rest == rest && PushAll(v, []) == v && Pending([]) == [] && Stored([]) == []
  {
  }

  function PushAll(v: View, txs: seq<CrossTx>): View
    decreases |txs|
  {
    if txs == [] then v else PushAll(HeapPush(v, ItemOf(txs[0])), txs[1..])
  }

  function ItemsOf(txs: seq<CrossTx>): seq<Item> {
    if txs == [] then [] else [ItemOf(txs[0])] + ItemsOf(txs[1..])
  }

  class TxManager {
    const pending: Prque

    constructor ()
      ensures pending.Valid() && pending.Abs() == View([], map[], false) && fresh(pending) && fresh(pending.cont)
              && fresh(pending.cont.blocks)
    {
      pending := new Prque(false);
    }

    /** AddCrossTxs: finished transactions are only stored, completed outgoing ones
        only answered, all others stored and queued. */
    method AddCrossTxs(txs: seq<CrossTx>) returns (storeTxs: seq<CrossTx>, outTxs: seq<CrossTx>)
      requires pending.Valid()
      modifies pending.cont, pending.cont.blocks
      ensures pending.Valid() && pending.cont == old(pending.cont)
      ensures pending.Abs() == PushAll(old(pending.Abs()), Pending(txs))
      ensures storeTxs == Stored(txs)
      ensures multiset(txs) == multiset(storeTxs) + multiset(outTxs)
      ensures old(pending.cont.blocks) <= pending.cont.blocks
              && fresh(pending.cont.blocks[|old(pending.cont.blocks)|..])
    {
      hide SStack.Valid, SStack.Abs, HeapPush, PushAll, Pending, Stored;
      storeTxs, outTxs := [], [];
      var i := 0;
      assert txs[0..] == txs;
      while i < |txs|
        invariant 0 <= i <= |txs| && pending.Valid() && pending.cont == old(pending.cont)
        invariant old(pending.cont.blocks) <= pending.cont.blocks
                  && fresh(pending.cont.blocks[|old(pending.cont.blocks)|..])
        invariant PushAll(old(pending.Abs()), Pending(txs)) == PushAll(pending.Abs(), Pending(txs[i..]))
        invariant Stored(txs) == storeTxs + Stored(txs[i..])
        invariant multiset(txs[..i]) == multiset(storeTxs) + multiset(outTxs)
      {
        var tx := txs[i];
        PendingUnfold(txs, i);
        PushAllUnfold(pending.Abs(), tx, Pending(txs[i + 1..]));
        match tx.status {
          case Finished =>
            storeTxs := storeTxs + [tx];
          case OutOnceCompleted =>
            outTxs := outTxs + [tx];
          case Other =>
            storeTxs := storeTxs + [tx];
            ghost var before := pending.cont.blocks;
            pending.Push(tx.handle, Wrap(-(tx.seconds as int)));
            assert pending.cont.blocks[|old(pending.cont.blocks)|..]
                == before[|old(pending.cont.blocks)|..] + pending.cont.blocks[|before|..];
        }
        i := i + 1;
      }
      assert txs[..i] == txs && txs[i..] == [];
      PushAllUnfold(pending.Abs(), CrossTx(0, 0, Other), []);
    }

    /** The drain of ProcessCrossTxs. */
    method Drain() returns (popped: seq<Item>)
      requires pending.Valid()
      modifies pending.cont, pending.cont.blocks
      ensures pending.Valid() && pending.Abs().items == []
      ensures popped == Drained(old(pending.Abs()))
    {
      hide SStack.Valid, SStack.Abs, HeapPop;
      popped := [];
      var empty := pending.Empty();
      while !empty
        invariant pending.Valid() && pending.cont == old(pending.cont) && pending.cont.blocks == old(pending.cont.blocks)
        invariant empty == (pending.Abs().items == [])
        invariant Drained(old(pending.Abs())) == popped + Drained(pending.Abs())
        decreases |pending.Abs().items|
      {
        PopShrinks(pending.Abs());
        var handle, priority := pending.Pop();
        popped := popped + [Item(handle, priority)];
        empty := pending.Empty();
      }
    }
  }

  // ---------- The order of processing ----------

  lemma {:induction false} PushAllKeeps(base: int, v: View, txs: seq<CrossTx>)
    requires HeapIn(base, v) && forall tx :: tx in txs ==> Rank(base, ItemOf(tx)) < I63
    ensures HeapIn(base, PushAll(v, txs))
    ensures multiset(PushAll(v, txs).items) == multiset(v.items) + multiset(ItemsOf(txs))
    decreases |txs|
  {
    if txs != [] {
      var x := ItemOf(txs[0]);
      assert txs[0] in txs;
      PushKeepsHeap(base, v, x);
      PushAddsOne(v, x);
      PushAllKeeps(base, HeapPush(v, x), txs[1..]);
      assert multiset(ItemsOf(txs)) == multiset{x} + multiset(ItemsOf(txs[1..]));
    }
  }

  /** Exactly the transactions that are neither finished nor completed outgoing ones
      are queued, and all but the completed outgoing ones stored, as often as given. */
  lemma {:induction false} SplitByStatus(txs: seq<CrossTx>, tx: CrossTx)
    ensures multiset(Pending(txs))[tx] == if tx.status == Other then multiset(txs)[tx] else 0
    ensures multiset(Stored(txs))[tx] == if tx.status == OutOnceCompleted then 0 else multiset(txs)[tx]
  {
    if txs != [] {
      SplitByStatus(txs[1..], tx);
      assert txs == [txs[0]] + txs[1..];
    }
  }

  /** The time stamp an item was pushed for. */
  function TimeOf(x: Item): int64 {
    Wrap(-(x.priority as int))
  }

  lemma TimeOfItem(tx: CrossTx)
    ensures TimeOf(ItemOf(tx)) == tx.seconds
  {
  }

  function Latest(txs: seq<CrossTx>): (t: int)
    requires txs != []
    ensures (forall tx :: tx in txs ==> tx.seconds <= t) && exists tx :: tx in txs && tx.seconds == t
  {
    if |txs| == 1 then (assert txs[0] in txs; txs[0].seconds)
    else
      var t := Latest(txs[1..]);
      assert txs[0] in txs && forall tx :: tx in txs <==> tx == txs[0] || tx in txs[1..];
      if txs[0].seconds > t then txs[0].seconds else t
  }

  /** Pending transactions with time stamps less than 2^63 seconds apart are
      processed each once, oldest first. */
  lemma PendingDrainsInTimeOrder(txs: seq<CrossTx>)
    requires forall a, b :: a in txs && b in txs ==> a.seconds - b.seconds < I63
    ensures var popped := Drained(PushAll(View([], map[], false), txs));
            && multiset(popped) == multiset(ItemsOf(txs))
            && forall i, j :: 0 <= i < j < |popped| ==> TimeOf(popped[i]) <= TimeOf(popped[j])
  {
    hide Drained, PushAll, ItemsOf, Latest, TimeOf;
    var latest, v := if txs == [] then 0 else Latest(txs), View([], map[], false);
    forall tx | tx in txs ensures latest - I63 < tx.seconds <= latest && Rank(-latest, ItemOf(tx)) < I63 {
      RankIsAge(latest, tx);
    }
    PushAllKeeps(-latest, v, txs);
    hide Rank, HeapIn, ItemOf;
    var w := PushAll(v, txs);
    DrainedPermutes(w);
    DrainedDescends(-latest, w);
    var popped := Drained(w);
    forall i, j | 0 <= i < j < |popped| ensures TimeOf(popped[i]) <= TimeOf(popped[j]) {
      assert popped[i] in multiset(popped) && popped[j] in multiset(popped);
      AgeOfItem(latest, txs, popped[i]);
      AgeOfItem(latest, txs, popped[j]);
    }
  }

  /** From the empty manager: what is added and then drained comes out each pending
      transaction once, oldest first. */
  lemma AddedDrainsInTimeOrder(txs: seq<CrossTx>)
    requires forall a, b :: a in txs && b in txs && a.status == b.status == Other ==> a.seconds - b.seconds < I63
    ensures var popped := Drained(PushAll(View([], map[], false), Pending(txs)));
            && multiset(popped) == multiset(ItemsOf(Pending(txs)))
            && forall i, j :: 0 <= i < j < |popped| ==> TimeOf(popped[i]) <= TimeOf(popped[j])
  {
    forall tx | tx in Pending(txs) ensures tx in txs && tx.status == Other {
      assert multiset(Pending(txs))[tx] > 0;
      SplitByStatus(txs, tx);
    }
    PendingDrainsInTimeOrder(Pending(txs));
  }

  /** Seen from the latest time stamp the rank of a transaction is its age. */
  lemma RankIsAge(latest: int, tx: CrossTx)
    requires latest - I63 < tx.seconds <= latest
    ensures Rank(-latest, ItemOf(tx)) == latest - tx.seconds < I63
  {
  }

  lemma {:induction false} AgeOfItem(latest: int, txs: seq<CrossTx>, x: Item)
    requires x in ItemsOf(txs) && forall tx :: tx in txs ==> latest - I63 < tx.seconds <= latest
    ensures Rank(-latest, x) == latest - TimeOf(x)
  {
    hide Rank, TimeOf, ItemOf;
    if x != ItemOf(txs[0]) {
      AgeOfItem(latest, txs[1..], x);
    } else {
      assert txs[0] in txs;
      TimeOfItem(txs[0]);
      RankIsAge(latest, txs[0]);
    }
  }
}
