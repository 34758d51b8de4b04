/** The paged stack under the priority queue (fabric/courier/utils/prque/sstack.go). */
module PagedStack {
  import opened Words
  import opened QueueSpec
  import HeapOrder

  const BLOCK_SIZE: nat := 4096

  datatype Slot = Nil | Ref(item: Item)

  /** Exactly the first n slots are filled. */
  ghost predicate Filled(s: seq<Slot>, n: nat) {
    n <= |s| && forall i :: 0 <= i < |s| ==> (s[i].Ref? <==> i < n)
  }

  ghost function Items(s: seq<Slot>, n: nat): (r: seq<Item>)
    requires Filled(s, n)
    ensures |r| == n
  {
    seq(n, i requires 0 <= i < n => s[i].item)
  }

  /** Different arrays of the block size. */
  ghost predicate Blocks(blocks: seq<array<Slot>>) {
    && (forall b :: 0 <= b < |blocks| ==> blocks[b].Length == BLOCK_SIZE)
    && (forall b, c :: 0 <= b < c < |blocks| ==> blocks[b] != blocks[c])
  }

  /** The blocks side by side. */
  ghost function SlotsOf(blocks: seq<array<Slot>>): (s: seq<Slot>)
    requires Blocks(blocks)
    reads blocks
    ensures |s| == BLOCK_SIZE * |blocks|
  {
    seq(BLOCK_SIZE * |blocks|, i requires 0 <= i < BLOCK_SIZE * |blocks| && Blocks(blocks) reads blocks =>
        blocks[i / BLOCK_SIZE][i % BLOCK_SIZE])
  }

  lemma SlotIs(blocks: seq<array<Slot>>, b: nat, o: nat)
    requires Blocks(blocks) && b < |blocks| && o < BLOCK_SIZE
    ensures SlotsOf(blocks)[b * BLOCK_SIZE + o] == blocks[b][o]
  {
    assert (b * BLOCK_SIZE + o) / BLOCK_SIZE == b && (b * BLOCK_SIZE + o) % BLOCK_SIZE == o;
  }

  // ---------- Slots and items ----------

  lemma FillNext(s: seq<Slot>, n: nat, x: Item)
    requires Filled(s, n) && n < |s|
    ensures Filled(s[n := Ref(x)], n + 1)
    ensures Items(s[n := Ref(x)], n + 1) == Items(s, n) + [x]
  {
  }

  lemma EmptyLast(s: seq<Slot>, n: nat)
    requires Filled(s, n + 1)
    ensures s[n].Ref? && Items(s, n + 1)[n] == s[n].item
    ensures Filled(s[n := Nil], n) && Items(s[n := Nil], n) == Items(s, n + 1)[..n]
  {
  }

  lemma SwapFilled(s: seq<Slot>, n: nat, i: nat, j: nat)
    requires Filled(s, n) && i < n && j < n
    ensures s[i].Ref? && s[j].Ref? && Items(s, n)[i] == s[i].item && Items(s, n)[j] == s[j].item
    ensures Filled(s[i := s[j]][j := s[i]], n)
    ensures Items(s[i := s[j]][j := s[i]], n) == HeapOrder.Swapped(Items(s, n), i, j)
  {
  }

  lemma AppendEmpty(s: seq<Slot>, n: nat, k: nat)
    requires Filled(s, n)
    ensures Filled(s + seq(k, _ => Nil), n) && Items(s + seq(k, _ => Nil), n) == Items(s, n)
  {
  }

  class SStack {
    const tracking: bool
    var size: nat
    var capacity: nat
    var offset: int
    var blocks: seq<array<Slot>>
    var active: array<Slot>
    var reported: map<Value, int>  // what the callback was last told

    /** The active block and the offset in it denote slot `size`, either as the
        first free slot of a block or as the end of the block before. */
    ghost predicate Cursor()
      reads this
    {
      && |blocks| > 0
      && ((offset == size % BLOCK_SIZE && size / BLOCK_SIZE < |blocks| && active == blocks[size / BLOCK_SIZE])
          || (offset == BLOCK_SIZE && size > 0 && size % BLOCK_SIZE == 0 && size / BLOCK_SIZE <= |blocks| &&
              active == blocks[size / BLOCK_SIZE - 1]))
    }

    ghost predicate Pages()
      reads `capacity, `blocks
    {
      capacity == BLOCK_SIZE * |blocks| && Blocks(blocks)
    }

    ghost function Slots(): (s: seq<Slot>)
      requires Pages()
      reads `capacity, `blocks, blocks
      ensures |s| == capacity
    {
      SlotsOf(blocks)
    }

    ghost predicate Valid()
      reads this, blocks
    {
      Pages() && Cursor() && Filled(Slots(), size)
    }

    ghost function Abs(): (v: View)
      requires Valid()
      reads this, blocks
      ensures |v.items| == size
    {
      View(Items(Slots(), size), reported, tracking)
    }

    constructor (tracking: bool)
      ensures Valid() && Abs() == View([], map[], tracking) && fresh(blocks)
    {
      this.tracking := tracking;
      reported := map[];
      var b := new Slot[BLOCK_SIZE](_ => Nil);
      active := b;
      blocks := [b];
      capacity := BLOCK_SIZE;
      size, offset := 0, 0;
    }

    /** Writing one slot of one block changes that slot and no other. */
    method Store(block: array<Slot>, ghost b: nat, o: nat, slot: Slot)
      requires Pages() && b < |blocks| && block == blocks[b] && o < BLOCK_SIZE
      modifies block
      ensures Pages() && Slots() == old(Slots())[b * BLOCK_SIZE + o := slot]
    {
      label L:
      block[o] := slot;
      forall i | 0 <= i < capacity
        ensures Slots()[i] == if i == b * BLOCK_SIZE + o then slot else old@L(Slots())[i]
      {
        assert i / BLOCK_SIZE == b && i % BLOCK_SIZE == o <==> i == b * BLOCK_SIZE + o;
        assert i / BLOCK_SIZE != b ==> blocks[i / BLOCK_SIZE] != block;
      }
    }

    /** Room for one more: at a block boundary the next block becomes active, a
        new one if there is none. */
    method Advance()
      requires Valid()
      modifies this
      ensures Valid() && Abs() == old(Abs()) && size == old(size) && reported == old(reported)
      ensures offset == size % BLOCK_SIZE && size < capacity
      ensures old(blocks) <= blocks && fresh(blocks[|old(blocks)|..])
    {
      label L:
      if size == capacity {
        active := new Slot[BLOCK_SIZE](_ => Nil);
        blocks := blocks + [active];
        capacity := capacity + BLOCK_SIZE;
        offset := 0;
        assert Slots() == old@L(Slots()) + seq(BLOCK_SIZE, _ => Nil);
        AppendEmpty(old@L(Slots()), size, BLOCK_SIZE);
      } else if offset == BLOCK_SIZE {
        active := blocks[size / BLOCK_SIZE];
        offset := 0;
      }
    }

    method Push(data: Item)
      requires Valid()
      modifies this, blocks
      ensures Valid() && Abs() == Pushed(old(Abs()), data)
      ensures old(blocks) <= blocks && fresh(blocks[|old(blocks)|..])
    {
      hide SlotsOf, Filled, Items;
      Advance();
      ghost var was := Slots();
      if tracking {
        reported := reported[data.value := size];
      }
      ghost var b := size / BLOCK_SIZE;
      assert active == blocks[b] && b * BLOCK_SIZE + offset == size;
      assert b >= |old(blocks)| ==> blocks[|old(blocks)|..][b - |old(blocks)|] == active;
      FillNext(was, size, data);
      Store(active, b, offset, Ref(data));
      offset := offset + 1;
      size := size + 1;
    }

    /** The cursor moves back one slot, into the block before if need be. */
    method StepBack()
      requires Pages() && Cursor() && size > 0
      modifies `size, `offset, `active
      ensures Pages() && Cursor() && size == old(size) - 1 && Slots() == old(Slots())
      ensures 0 <= offset < BLOCK_SIZE && size / BLOCK_SIZE < |blocks|
      ensures active == blocks[size / BLOCK_SIZE] && (size / BLOCK_SIZE) * BLOCK_SIZE + offset == size
    {
      size := size - 1;
      offset := offset - 1;
      if offset < 0 {
        offset := BLOCK_SIZE - 1;
        active := blocks[size / BLOCK_SIZE];
      }
    }

    method Pop() returns (x: Item)
      requires Valid() && size > 0
      modifies this, blocks
      ensures Valid() && blocks == old(blocks)
      ensures x == old(Abs()).items[old(size) - 1] && Abs() == Popped(old(Abs()))
    {
      hide SlotsOf, Filled, Items;
      ghost var was := Slots();
      EmptyLast(was, size - 1);
      StepBack();
      ghost var b := size / BLOCK_SIZE;
      SlotIs(blocks, b, offset);
      x := active[offset].item;
      Store(active, b, offset, Nil);
      if tracking {
        reported := reported[x.value := -1];
      }
    }

    method Len() returns (n: nat)
      ensures n == size
    {
      n := size;
    }

    method Less(i: nat, j: nat) returns (less: bool)
      requires Valid() && i < size && j < size
      ensures less == Before(Abs().items[i], Abs().items[j])
    {
      SwapFilled(Slots(), size, i, j);
      SlotIs(blocks, i / BLOCK_SIZE, i % BLOCK_SIZE);
      SlotIs(blocks, j / BLOCK_SIZE, j % BLOCK_SIZE);
      less := Wrap(blocks[i / BLOCK_SIZE][i % BLOCK_SIZE].item.priority
                   - blocks[j / BLOCK_SIZE][j % BLOCK_SIZE].item.priority) > 0;
    }

    method Swap(i: nat, j: nat)
      requires Valid() && i < size && j < size
      modifies this, blocks
      ensures Valid() && blocks == old(blocks) && Abs() == QueueSpec.Swap(old(Abs()), i, j)
    {
      hide SlotsOf, Filled, Items;
      ghost var was := Slots();
      SwapFilled(was, size, i, j);
      var ib, io, jb, jo := i / BLOCK_SIZE, i % BLOCK_SIZE, j / BLOCK_SIZE, j % BLOCK_SIZE;
      SlotIs(blocks, ib, io);
      SlotIs(blocks, jb, jo);
      var a, b := blocks[jb][jo], blocks[ib][io];
      if tracking {
        reported := reported[a.item.value := i];
        reported := reported[b.item.value := j];
      }
      Store(blocks[ib], ib, io, a);
      Store(blocks[jb], jb, jo, b);
    }

    /** The callback is not told about the items dropped. */
    method Reset()
      requires Valid()
      modifies this
      ensures Valid() && fresh(blocks)
      ensures Abs() == old(Abs()).(items := [])
    {
      var b := new Slot[BLOCK_SIZE](_ => Nil);
      active := b;
      blocks := [b];
      capacity := BLOCK_SIZE;
      size, offset := 0, 0;
    }
  }
}
